/** The global semaphore `sema` of batchUpdateProperties.js as a sequential state
    machine. `waiter` is the single parked `acquire` (`resolve`) and `drainWaiter`
    the single pending `allDone` (`cleanResolve`). */
module Semaphore {
  import opened Wrappers

  datatype Sema = Sema(cnt: nat, max: nat, waiter: bool, drainWaiter: bool)

  /** The state the script starts with: `{cnt: 0, max: 3}`. */
  const Initial := Sema(0, 3, false, false)

  /** The bound every reachable state keeps: no more slots are out than `max`. */
  predicate Valid(s: Sema) {
    s.cnt <= s.max
  }

  /** `config(max)`: refused while anything holds or waits on the semaphore. */
  function Config(s: Sema, max: nat): (r: Result<Sema>)
    ensures r.Ok? <==> s.cnt == 0 && !s.waiter && !s.drainWaiter
    ensures r.Ok? ==> r.value.max == max && r.value.cnt == 0 && Valid(r.value)
  {
    if s.cnt != 0 || s.waiter || s.drainWaiter then Err("semaphore is in use!")
    else Ok(s.(max := max))
  }

  datatype AcquireOutcome =
    | Granted
      /** The caller is parked; `displaced` says an earlier parked caller was
          overwritten and can no longer be resumed. */
    | Parked(displaced: bool)

  /** `acquire()`: takes a slot while one is free, otherwise parks the caller in
      the single waiter slot, overwriting whoever was parked there. */
  function Acquire(s: Sema): (r: (Sema, AcquireOutcome))
    ensures Valid(s) ==> Valid(r.0)
    ensures r.1.Granted? <==> s.cnt < s.max
    ensures r.1.Granted? ==> r.0.cnt == s.cnt + 1 && r.0.waiter == s.waiter
    ensures r.1.Parked? ==> r.0.cnt == s.cnt && r.0.waiter && r.1.displaced == s.waiter
    ensures r.0.max == s.max && r.0.drainWaiter == s.drainWaiter
  {
    if s.cnt < s.max then (s.(cnt := s.cnt + 1), Granted)
    else (s.(waiter := true), Parked(s.waiter))
  }

  datatype ReleaseOutcome =
    | HandedOver
      /** The count went down; `drained` says a pending `allDone` fired. */
    | Decremented(drained: bool)

  /** `release()`: hands the slot to the parked caller if there is one, fails when
      nothing is held, otherwise gives the slot back and wakes `allDone` when the
      count reaches zero. */
  function Release(s: Sema): (r: Result<(Sema, ReleaseOutcome)>)
    ensures r.Err? <==> !s.waiter && s.cnt == 0
    ensures r.Ok? && Valid(s) ==> Valid(r.value.0)
    ensures r.Ok? && s.waiter ==> r.value.1 == HandedOver && r.value.0.cnt == s.cnt && !r.value.0.waiter
    ensures r.Ok? && !s.waiter ==> r.value.1.Decremented? && r.value.0.cnt == s.cnt - 1
    ensures r.Ok? ==> (r.value.1 == Decremented(true) <==> !s.waiter && s.drainWaiter && r.value.0.cnt == 0)
    ensures r.Ok? ==> !r.value.0.waiter && r.value.0.max == s.max
    ensures r.Ok? ==> r.value.0.drainWaiter == (s.drainWaiter && r.value.1 != Decremented(true))
  {
    if s.waiter then Ok((s.(waiter := false), HandedOver))
    else if s.cnt == 0 then Err("semorphore is empty!")
    else if s.cnt == 1 && s.drainWaiter then Ok((s.(cnt := 0, drainWaiter := false), Decremented(true)))
    else Ok((s.(cnt := s.cnt - 1), Decremented(false)))
  }

  datatype DrainOutcome = Immediate | Pending

  /** `allDone()`: returns at once when nothing is held, otherwise registers the
      single drain waiter (a second call overwrites the first). */
  function AllDone(s: Sema): (r: (Sema, DrainOutcome))
    ensures r.1 == Immediate <==> s.cnt == 0
    ensures r.1 == Immediate ==> r.0 == s
    ensures r.1 == Pending ==> r.0.drainWaiter && r.0.cnt == s.cnt
    ensures Valid(s) ==> Valid(r.0)
  {
    if s.cnt == 0 then (s, Immediate) else (s.(drainWaiter := true), Pending)
  }

  datatype Op = Acq | Rel | Drain | Cfg(max: nat)

  datatype Event = Acquired(a: AcquireOutcome) | Released(rl: ReleaseOutcome) | Drained(d: DrainOutcome) | Configured

  /** Runs a sequence of calls; the first call that throws ends the run. */
  function Run(s: Sema, ops: seq<Op>): Result<(Sema, seq<Event>)>
    decreases |ops|
  {
    if |ops| == 0 then Ok((s, []))
    else
      var step: Result<(Sema, Event)> :=
        match ops[0]
        case Acq => var (t, a) := Acquire(s); Ok((t, Acquired(a)))
        case Rel => (match Release(s) case Ok((t, rl)) => Ok((t, Released(rl))) case Err(m) => Err(m))
        case Drain => var (t, d) := AllDone(s); Ok((t, Drained(d)))
        case Cfg(n) => (match Config(s, n) case Ok(t) => Ok((t, Configured)) case Err(m) => Err(m));
      match step
      case Err(m) => Err(m)
      case Ok((t, e)) =>
        match Run(t, ops[1..])
        case Err(m) => Err(m)
        case Ok((u, es)) => Ok((u, [e] + es))
  }

  /** Number of callers holding a slot after the events, relative to the start: a
      granted acquire adds one, a release that gives the slot back removes one, a
      hand-over moves the slot from the releaser to the parked caller. */
  function Holders(es: seq<Event>): int {
    if |es| == 0 then 0
    else
      (match es[0]
       case Acquired(Granted) => 1
       case Released(Decremented(_)) => -1
       case _ => 0) + Holders(es[1..])
  }

  /** Concurrency bound: along any run the count stays within `max`, and it is
      exactly the number of slots handed out and not given back. */
  lemma {:induction false} RunKeepsBound(s: Sema, ops: seq<Op>)
    requires Valid(s)
    ensures Run(s, ops).Ok? ==> Valid(Run(s, ops).value.0)
    ensures Run(s, ops).Ok? ==> Run(s, ops).value.0.cnt == s.cnt + Holders(Run(s, ops).value.1)
    decreases |ops|
  {
    if |ops| > 0 {
      match ops[0]
      case Acq => RunKeepsBound(Acquire(s).0, ops[1..]);
      case Rel =>
        if Release(s).Ok? { RunKeepsBound(Release(s).value.0, ops[1..]); }
      case Drain => RunKeepsBound(AllDone(s).0, ops[1..]);
      case Cfg(n) =>
        if Config(s, n).Ok? { RunKeepsBound(Config(s, n).value, ops[1..]); }
    }
  }

  /** A second `acquire` while the semaphore is full overwrites the first parked
      caller: after one release, which resumes only the second, nobody is parked
      although two callers were. */
  lemma SecondParkedAcquireIsLost(s: Sema)
    requires Valid(s) && s.cnt == s.max && !s.waiter
    ensures Run(s, [Acq, Acq, Rel]).Ok?
    ensures Run(s, [Acq, Acq, Rel]).value.1 == [Acquired(Parked(false)), Acquired(Parked(true)), Released(HandedOver)]
    ensures !Run(s, [Acq, Acq, Rel]).value.0.waiter && Run(s, [Acq, Acq, Rel]).value.0.cnt == s.max
  {
    var s1 := s.(waiter := true);
    assert Acquire(s) == (s1, Parked(false));
    assert Acquire(s1) == (s1, Parked(true));
    assert Release(s1) == Ok((s, HandedOver));
    assert [Acq, Acq, Rel][1..] == [Acq, Rel];
    assert [Acq, Rel][1..] == [Rel];
    assert [Rel][1..] == [];
  }
}
