/** The Check stage (`checkProperties`): fetch each unchecked record's production
    version, evaluate the task's predicate, and prepare the new version.
    `CheckLoop` and `Check` take the lookups one at a time, each completing
    before the next record is considered: the behaviour the stage is meant to
    have. `CheckLoopAsWritten` and `CheckAsWritten` follow the code as written,
    where two lookups run at once and their results are counted only when
    their replies arrive. */
module CheckStage {
  import opened Wrappers
  import opened Strings
  import opened BatchTask
  import opened Store

  /** The reply of `getPropertyVersion(p.id, p.prodVer)`. */
  datatype Fetched = Fetched(version: int, inProduction: bool, configs: PropertyVersion) | FetchFailure(message: string)

  /** The description stamped on every new version. */
  function Description(p: Record, t: Task): string {
    "cloned from version " + IntToString(p.prodVer) + " by " + t.operator + ", " + t.comments
  }

  /** The fields Check never writes. */
  predicate SameIdentity(p: Record, q: Record) {
    p.id == q.id && p.name == q.name && p.cid == q.cid && p.prodVer == q.prodVer
  }

  datatype CheckStep =
    | Checked(p: Record, matched: bool)
      /** The fetched version is not the expected production version, or the
          lookup failed: the error is rethrown in a promise nobody awaits. */
    | Aborted(reason: string)
      /** The new version still satisfies the predicate: `process.exit(1)`. */
    | StillMatches(p: Record)

  /** The new version the task derives from `pv`, with its description set. */
  function Candidate(p: Record, pv: PropertyVersion, t: Task): Option<PropertyVersion> {
    match t.createVersion(pv)
    case Ok(nv) => Some(nv.(description := Some(Description(p, t))))
    case Err(_) => None
  }

  /** The message of the first task call that throws while checking `pv`:
      the predicate, then (if it held) the transform, then the predicate on the
      new version. */
  function Thrown(p: Record, pv: PropertyVersion, t: Task): Option<string> {
    match t.condition(pv)
    case Err(m) => Some(m)
    case Ok(false) => None
    case Ok(true) =>
      match t.createVersion(pv)
      case Err(m) => Some(m)
      case Ok(nv) =>
        match t.condition(nv.(description := Some(Description(p, t))))
        case Err(m) => Some(m)
        case Ok(_) => None
  }

  /** The `.then` handler of one lookup (batchUpdateProperties.js:201-236). */
  function CheckRecord(p: Record, f: Fetched, t: Task): (r: CheckStep)
    ensures r.Aborted? <==> f.FetchFailure? || f.version != p.prodVer || !f.inProduction
    ensures r.Checked? ==> SameIdentity(p, r.p) && r.p.prodVerConfig == Some(f.configs)
    ensures r.Checked? ==> r.p.deploymentTaskId == p.deploymentTaskId && r.p.newVerDeployed == p.newVerDeployed
    ensures r.Checked? ==> r.p.condition == Some(r.matched)
    ensures r.Checked? && r.matched ==>
      && t.condition(f.configs) == Ok(true)
      && r.p.newVerConfig == Candidate(p, f.configs, t) && r.p.newVerConfig.Some?
      && t.condition(r.p.newVerConfig.value) == Ok(false)
      && r.p.error == p.error
    ensures r.Checked? ==> r.p.error == (if Thrown(p, f.configs, t).Some? then Thrown(p, f.configs, t) else p.error)
    ensures r.Checked? && Thrown(p, f.configs, t).Some? ==> !r.matched
    ensures r.Checked? && Thrown(p, f.configs, t).None? ==>
      r.p.newVer.None? && r.p.validId.None? && r.p.newVerValidated.None?
    ensures r.StillMatches? ==>
      && f.Fetched? && t.condition(f.configs) == Ok(true)
      && r.p.newVerConfig == Candidate(p, f.configs, t) && r.p.newVerConfig.Some?
      && t.condition(r.p.newVerConfig.value) == Ok(true)
  {
    if f.FetchFailure? then Aborted("Error: getting property " + p.id + ": " + f.message)
    else if p.prodVer != f.version || !f.inProduction then Aborted("got wrong property version of ${p.id}!")
    else
      var pv := f.configs;
      var p1 := p.(prodVerConfig := Some(pv));
      match t.condition(pv)
      case Err(m) => Checked(p1.(condition := Some(false), error := Some(m)), false)
      case Ok(false) =>
        Checked(p1.(condition := Some(false), newVer := None, validId := None, newVerValidated := None), false)
      case Ok(true) =>
        match t.createVersion(pv)
        case Err(m) => Checked(p1.(condition := Some(false), error := Some(m)), false)
        case Ok(nv) =>
          var nv' := nv.(description := Some(Description(p, t)));
          var p2 := p1.(condition := Some(true), newVerConfig := Some(nv'));
          match t.condition(nv')
          case Err(m) => Checked(p2.(condition := Some(false), error := Some(m)), false)
          case Ok(true) => StillMatches(p2)
          case Ok(false) => Checked(p2.(newVer := None, validId := None, newVerValidated := None), true)
  }

  /** The loop state of `checkProperties`: records, how the loop ended, the
      number of lookups made (`cnt`) and of matches (`matched`). */
  datatype Progress = Progress(records: seq<Record>, ending: Ending, cnt: nat, matched: nat)

  /** Considered for a lookup: no `condition` yet, or forced (`check-f`). */
  predicate Pending(p: Record, force: bool) {
    p.condition.None? || force
  }

  /** `q` is what the lookup of `p` answered with `f` makes of it. */
  predicate Looked(p: Record, f: Fetched, t: Task, q: Record) {
    CheckRecord(p, f, t).Checked? && q == CheckRecord(p, f, t).p
  }

  /** The number of pending records in `rs`. */
  function PendingCount(rs: seq<Record>, force: bool): nat {
    if |rs| == 0 then 0 else (if Pending(rs[0], force) then 1 else 0) + PendingCount(rs[1..], force)
  }

  function CheckLoop(rs: seq<Record>, i: nat, cnt: nat, matched: nat, t: Task, force: bool, fetch: int -> Fetched): (r: Progress)
    requires i <= |rs|
    decreases |rs| - i
  {
    if i == |rs| || matched >= BatchSize(t) then Progress(rs, Finished, cnt, matched)
    else if !Pending(rs[i], force) then CheckLoop(rs, i + 1, cnt, matched, t, force, fetch)
    else
      match CheckRecord(rs[i], fetch(i), t)
      case Aborted(m) => Progress(rs, Crashed(m), cnt + 1, matched)
      case StillMatches(p) => Progress(rs[i := p], Exited(1), cnt + 1, matched)
      case Checked(p, m) => CheckLoop(rs[i := p], i + 1, cnt + 1, matched + (if m then 1 else 0), t, force, fetch)
  }

  /** The store invariant Check maintains: a matched record carries a new version
      on which the predicate is false. */
  predicate SafeStore(rs: seq<Record>, t: Task) {
    forall j | 0 <= j < |rs| :: rs[j].condition == Some(true) ==>
      rs[j].newVerConfig.Some? && t.condition(rs[j].newVerConfig.value) == Ok(false)
  }

  /** What the loop guarantees about the records: nothing but Check's own
      fields changes, a record that is not pending is left as it was, a
      record a finished loop changed carries its lookup's verdict, and a loop
      that finishes below the batch limit has looked up every pending record
      from `i` on. */
  lemma {:induction false} CheckLoopFacts(rs: seq<Record>, i: nat, cnt: nat, matched: nat, t: Task, force: bool, fetch: int -> Fetched)
    requires i <= |rs|
    ensures var r := CheckLoop(rs, i, cnt, matched, t, force, fetch);
      && |r.records| == |rs|
      && (forall j | 0 <= j < |rs| :: SameIdentity(rs[j], r.records[j]))
      && (forall j | 0 <= j < |rs| :: (j < i || !Pending(rs[j], force)) ==> r.records[j] == rs[j])
      && (r.ending == Finished ==> forall j | i <= j < |rs| :: r.records[j] != rs[j] ==> r.records[j].condition.Some?)
      && (r.ending == Finished && r.matched < BatchSize(t) ==>
            forall j | i <= j < |rs| :: Pending(rs[j], force) ==> Looked(rs[j], fetch(j), t, r.records[j]))
    decreases |rs| - i
  {
    if i == |rs| || matched >= BatchSize(t) {
    } else if !Pending(rs[i], force) {
      CheckLoopFacts(rs, i + 1, cnt, matched, t, force, fetch);
    } else {
      match CheckRecord(rs[i], fetch(i), t)
      case Aborted(m) =>
      case StillMatches(p) =>
      case Checked(p, m) =>
        var rs' := rs[i := p];
        CheckLoopFacts(rs', i + 1, cnt + 1, matched + (if m then 1 else 0), t, force, fetch);
        assert forall j | 0 <= j < |rs| && j != i :: rs'[j] == rs[j];
        var r := CheckLoop(rs', i + 1, cnt + 1, matched + (if m then 1 else 0), t, force, fetch);
        assert r.records[i] == p;
        assert Looked(rs[i], fetch(i), t, r.records[i]);
    }
  }

  /** What the loop guarantees about its counters: the matches stay within the
      batch limit, a loop that stops on the limit has reached it exactly,
      lookups only add up and a loop that made none changed nothing, and the
      loop ends by finishing, by a crash or by exiting with 1. */
  lemma {:induction false} CheckLoopCounts(rs: seq<Record>, i: nat, cnt: nat, matched: nat, t: Task, force: bool, fetch: int -> Fetched)
    requires i <= |rs|
    requires matched <= if BatchSize(t) > 0 then BatchSize(t) else 0
    ensures var r := CheckLoop(rs, i, cnt, matched, t, force, fetch);
      && r.matched <= (if BatchSize(t) > 0 then BatchSize(t) else 0)
      && (r.ending == Finished && r.matched >= BatchSize(t) ==> r.matched == (if BatchSize(t) > 0 then BatchSize(t) else 0))
      && r.cnt >= cnt
      && (r.cnt == cnt ==> r.records == rs)
      && (r.ending.Finished? || r.ending.Crashed? || r.ending == Exited(1))
    decreases |rs| - i
  {
    if i == |rs| || matched >= BatchSize(t) {
    } else if !Pending(rs[i], force) {
      CheckLoopCounts(rs, i + 1, cnt, matched, t, force, fetch);
    } else {
      match CheckRecord(rs[i], fetch(i), t)
      case Aborted(m) =>
      case StillMatches(p) =>
      case Checked(p, m) =>
        CheckLoopCounts(rs[i := p], i + 1, cnt + 1, matched + (if m then 1 else 0), t, force, fetch);
    }
  }

  /** Unless the run exits on a new version that still matches, the records it
      leaves keep the store invariant. */
  lemma {:induction false} CheckLoopKeepsSafe(rs: seq<Record>, i: nat, cnt: nat, matched: nat, t: Task, force: bool, fetch: int -> Fetched)
    requires i <= |rs| && SafeStore(rs, t)
    ensures var r := CheckLoop(rs, i, cnt, matched, t, force, fetch);
      r.ending != Exited(1) ==> SafeStore(r.records, t)
    decreases |rs| - i
  {
    if i == |rs| || matched >= BatchSize(t) {
    } else if !Pending(rs[i], force) {
      CheckLoopKeepsSafe(rs, i + 1, cnt, matched, t, force, fetch);
    } else {
      match CheckRecord(rs[i], fetch(i), t)
      case Aborted(m) =>
      case StillMatches(p) =>
      case Checked(p, m) =>
        assert SafeStore(rs[i := p], t);
        CheckLoopKeepsSafe(rs[i := p], i + 1, cnt + 1, matched + (if m then 1 else 0), t, force, fetch);
    }
  }

  /** `checkProperties(2, force)`: the store is saved only when the loop ended
      normally after at least one lookup; an abort or an exit leaves the file
      as it was loaded. */
  function Check(loaded: seq<Record>, t: Task, force: bool, fetch: int -> Fetched): (r: StageRun)
    ensures r.disk == loaded || (r.disk == r.memory && r.ending == Finished)
    ensures |r.memory| == |loaded|
  {
    CheckLoopFacts(loaded, 0, 0, 0, t, force, fetch);
    CheckLoopCounts(loaded, 0, 0, 0, t, force, fetch);
    var l := CheckLoop(loaded, 0, 0, 0, t, force, fetch);
    if l.ending != Finished then StageRun(loaded, l.records, l.ending)
    else if l.cnt > 0 then StageRun(l.records, l.records, Finished)
    else StageRun(loaded, l.records, Finished)
  }

  /** The store file never acquires a matched record whose new version still
      satisfies the predicate. */
  lemma CheckKeepsStoreSafe(loaded: seq<Record>, t: Task, force: bool, fetch: int -> Fetched)
    requires SafeStore(loaded, t)
    ensures SafeStore(Check(loaded, t, force, fetch).disk, t)
  {
    CheckLoopKeepsSafe(loaded, 0, 0, 0, t, force, fetch);
  }

  /** Check touches at most the pending records, never the identity fields, and
      never matches more records than the batch limit. */
  lemma CheckTouchesOnlyPending(loaded: seq<Record>, t: Task, force: bool, fetch: int -> Fetched)
    ensures var r := Check(loaded, t, force, fetch);
      && (forall j | 0 <= j < |loaded| :: SameIdentity(loaded[j], r.memory[j]))
      && (forall j | 0 <= j < |loaded| :: !Pending(loaded[j], force) ==> r.memory[j] == loaded[j])
      && CheckLoop(loaded, 0, 0, 0, t, force, fetch).matched <= (if BatchSize(t) > 0 then BatchSize(t) else 0)
  {
    CheckLoopFacts(loaded, 0, 0, 0, t, force, fetch);
    CheckLoopCounts(loaded, 0, 0, 0, t, force, fetch);
  }

  /** With the template task the check at batchUpdateProperties.js:217-222 never
      fires: a lookup never ends in `StillMatches`. */
  lemma TemplateNeverStillMatches(p: Record, f: Fetched)
    ensures !CheckRecord(p, f, TemplateTask).StillMatches?
  {
    if f.Fetched? && Condition(f.configs) {
      CreateVersionClearsCondition(f.configs, Some(Description(p, TemplateTask)));
    }
  }

  /** Hence a Check run with the template task never exits with code 1. */
  lemma {:induction false} TemplateCheckNeverExits(rs: seq<Record>, i: nat, cnt: nat, matched: nat, force: bool, fetch: int -> Fetched)
    requires i <= |rs|
    ensures CheckLoop(rs, i, cnt, matched, TemplateTask, force, fetch).ending != Exited(1)
    decreases |rs| - i
  {
    if i == |rs| || matched >= BatchSize(TemplateTask) {
    } else if !Pending(rs[i], force) {
      TemplateCheckNeverExits(rs, i + 1, cnt, matched, force, fetch);
    } else {
      TemplateNeverStillMatches(rs[i], fetch(i));
      match CheckRecord(rs[i], fetch(i), TemplateTask)
      case Aborted(m) =>
      case Checked(p, m) =>
        TemplateCheckNeverExits(rs[i := p], i + 1, cnt + 1, matched + (if m then 1 else 0), force, fetch);
    }
  }

  /** The pending records of `rs` from `i` on. */
  lemma PendingCountSplit(rs: seq<Record>, i: nat, force: bool)
    requires i < |rs|
    ensures PendingCount(rs[i..], force) == (if Pending(rs[i], force) then 1 else 0) + PendingCount(rs[i + 1..], force)
  {
    assert rs[i..][1..] == rs[i + 1..];
  }

  /** A store without pending records. */
  lemma {:induction false} NoPending(rs: seq<Record>, force: bool)
    requires PendingCount(rs, force) == 0
    ensures forall j | 0 <= j < |rs| :: !Pending(rs[j], force)
  {
    if |rs| > 0 {
      NoPending(rs[1..], force);
      assert forall j | 1 <= j < |rs| :: rs[j] == rs[1..][j - 1];
    }
  }

  /** When every pending record's lookup succeeds and the batch limit leaves
      room for all of them, the loop looks each one up, counts each lookup,
      and finishes. */
  lemma {:induction false} CheckLoopLooksUpAll(rs: seq<Record>, i: nat, cnt: nat, matched: nat, t: Task, force: bool, fetch: int -> Fetched)
    requires i <= |rs|
    requires matched + PendingCount(rs[i..], force) <= BatchSize(t)
    requires forall j | i <= j < |rs| :: Pending(rs[j], force) ==> CheckRecord(rs[j], fetch(j), t).Checked?
    ensures var r := CheckLoop(rs, i, cnt, matched, t, force, fetch);
      && r.ending == Finished
      && r.cnt == cnt + PendingCount(rs[i..], force)
      && |r.records| == |rs|
      && (forall j | i <= j < |rs| :: Pending(rs[j], force) ==> Looked(rs[j], fetch(j), t, r.records[j]))
      && (forall j | i <= j < |rs| :: !Pending(rs[j], force) ==> r.records[j] == rs[j])
    decreases |rs| - i
  {
    if i == |rs| {
    } else if matched >= BatchSize(t) {
      NoPending(rs[i..], force);
      assert forall j | i <= j < |rs| :: rs[j] == rs[i..][j - i];
    } else {
      PendingCountSplit(rs, i, force);
      if !Pending(rs[i], force) {
        CheckLoopLooksUpAll(rs, i + 1, cnt, matched, t, force, fetch);
        CheckLoopFacts(rs, i + 1, cnt, matched, t, force, fetch);
      } else {
        var p := CheckRecord(rs[i], fetch(i), t).p;
        var m := CheckRecord(rs[i], fetch(i), t).matched;
        var rs' := rs[i := p];
        assert rs'[i + 1..] == rs[i + 1..];
        assert forall j | i < j < |rs| :: rs'[j] == rs[j];
        CheckLoopLooksUpAll(rs', i + 1, cnt + 1, matched + (if m then 1 else 0), t, force, fetch);
        CheckLoopFacts(rs', i + 1, cnt + 1, matched + (if m then 1 else 0), t, force, fetch);
        var r := CheckLoop(rs', i + 1, cnt + 1, matched + (if m then 1 else 0), t, force, fetch);
        assert r.records[i] == p;
        assert Looked(rs[i], fetch(i), t, r.records[i]);
      }
    }
  }

  /** The intended behaviour of the stage: when the pending records fit in the
      batch limit and every lookup succeeds, the run finishes and the file
      holds every pending record with its verdict and every other record as it
      was. */
  lemma CheckSavesEveryLookup(loaded: seq<Record>, t: Task, force: bool, fetch: int -> Fetched)
    requires PendingCount(loaded, force) <= BatchSize(t)
    requires forall j | 0 <= j < |loaded| :: Pending(loaded[j], force) ==> CheckRecord(loaded[j], fetch(j), t).Checked?
    ensures var r := Check(loaded, t, force, fetch);
      && r.ending == Finished && |r.disk| == |loaded|
      && (forall j | 0 <= j < |loaded| :: Pending(loaded[j], force) ==> Looked(loaded[j], fetch(j), t, r.disk[j]))
      && (forall j | 0 <= j < |loaded| :: !Pending(loaded[j], force) ==> r.disk[j] == loaded[j])
  {
    assert loaded[0..] == loaded;
    CheckLoopLooksUpAll(loaded, 0, 0, 0, t, force, fetch);
    CheckLoopCounts(loaded, 0, 0, 0, t, force, fetch);
  }

  // The code as written. `await sema.acquire()` returns at once while fewer
  // than two lookups are in flight, so the loop starts the next lookup before
  // the previous one has answered; `cnt` and `matched` grow only in the
  // `.then` handlers. Replies are taken to arrive oldest first, and only
  // while the loop waits for a slot or after it has ended.

  /** The `.then` handler of the lookup of the record at `j` when its reply
      arrives: `cnt++`, then the verdict. */
  function Land(rs: seq<Record>, j: nat, cnt: nat, matched: nat, t: Task, fetch: int -> Fetched): (r: Progress)
    requires j < |rs|
    ensures |r.records| == |rs| && r.cnt == cnt + 1
    ensures r.ending == Finished <==> CheckRecord(rs[j], fetch(j), t).Checked?
    ensures r.ending == Finished ==>
      r.records == rs[j := CheckRecord(rs[j], fetch(j), t).p]
      && r.matched == matched + (if CheckRecord(rs[j], fetch(j), t).matched then 1 else 0)
  {
    match CheckRecord(rs[j], fetch(j), t)
    case Aborted(m) => Progress(rs, Crashed(m), cnt + 1, matched)
    case StillMatches(p) => Progress(rs[j := p], Exited(1), cnt + 1, matched)
    case Checked(p, m) => Progress(rs[j := p], Finished, cnt + 1, matched + (if m then 1 else 0))
  }

  predicate InRange(flight: seq<nat>, n: nat) {
    forall k | 0 <= k < |flight| :: flight[k] < n
  }

  /** `await sema.allDone()`: the replies still in flight arrive in turn.
      A reply that fails the sanity check still ran `sema.release()` first.
      When it is the last one in flight, that release resolves `allDone`, and
      the save and `process.exit(0)` run as microtasks before the rethrown
      error is reported: the run ends normally with that record unchanged. A
      failed request never releases, so it crashes the run. */
  function Drain(rs: seq<Record>, flight: seq<nat>, cnt: nat, matched: nat, t: Task, fetch: int -> Fetched): (r: Progress)
    requires InRange(flight, |rs|)
    ensures |r.records| == |rs| && r.cnt >= cnt && r.matched >= matched
    ensures |flight| == 1 && CheckRecord(rs[flight[0]], fetch(flight[0]), t).Aborted? ==>
      (fetch(flight[0]).Fetched? <==> r == Progress(rs, Finished, cnt + 1, matched))
    ensures |flight| == 1 && fetch(flight[0]).FetchFailure? ==> r.ending.Crashed?
    decreases |flight|
  {
    if |flight| == 0 then Progress(rs, Finished, cnt, matched)
    else
      var l := Land(rs, flight[0], cnt, matched, t, fetch);
      if |flight| == 1 && l.ending.Crashed? && fetch(flight[0]).Fetched? then Progress(rs, Finished, l.cnt, matched)
      else if l.ending != Finished then l
      else Drain(l.records, flight[1..], l.cnt, l.matched, t, fetch)
  }

  /** The loop of `checkProperties` as written, with the lookups in flight
      (oldest first) beside the loop state. */
  function CheckLoopAsWritten(rs: seq<Record>, i: nat, flight: seq<nat>, cnt: nat, matched: nat,
                              t: Task, force: bool, fetch: int -> Fetched): (r: (Progress, seq<nat>))
    requires i <= |rs| && |flight| <= 2 && InRange(flight, |rs|)
    ensures |r.0.records| == |rs| && InRange(r.1, |rs|)
    decreases |rs| - i
  {
    if i == |rs| || matched >= BatchSize(t) then (Progress(rs, Finished, cnt, matched), flight)
    else if !Pending(rs[i], force) then CheckLoopAsWritten(rs, i + 1, flight, cnt, matched, t, force, fetch)
    else if |flight| < 2 then CheckLoopAsWritten(rs, i + 1, flight + [i], cnt, matched, t, force, fetch)
    else
      var l := Land(rs, flight[0], cnt, matched, t, fetch);
      if l.ending != Finished then (l, flight[1..])
      else CheckLoopAsWritten(l.records, i + 1, flight[1..] + [i], l.cnt, l.matched, t, force, fetch)
  }

  /** `checkProperties(2, force)` as written: after the loop, `cnt > 0` waits
      for the lookups in flight and saves; `cnt == 0` returns, and
      `process.exit(0)` in `main` drops the lookups still in flight. */
  function CheckAsWritten(loaded: seq<Record>, t: Task, force: bool, fetch: int -> Fetched): (r: StageRun)
    ensures r.disk == loaded || (r.disk == r.memory && r.ending == Finished)
    ensures |r.memory| == |loaded|
  {
    var (l, flight) := CheckLoopAsWritten(loaded, 0, [], 0, 0, t, force, fetch);
    if l.ending != Finished then StageRun(loaded, l.records, l.ending)
    else if l.cnt == 0 then StageRun(loaded, l.records, Finished)
    else
      var d := Drain(l.records, flight, l.cnt, l.matched, t, fetch);
      if d.ending != Finished then StageRun(loaded, d.records, d.ending)
      else StageRun(d.records, d.records, Finished)
  }

  /** As written, a store whose last lookup to arrive fails the sanity check
      is still saved, with that record as it was and the earlier lookups'
      verdicts in place. */
  lemma CheckAsWrittenSavesPastLastMismatch(loaded: seq<Record>, t: Task, force: bool, fetch: int -> Fetched)
    requires |loaded| == 3 && BatchSize(t) >= 3
    requires forall j | 0 <= j < 3 :: Pending(loaded[j], force)
    requires forall j | 0 <= j < 2 :: CheckRecord(loaded[j], fetch(j), t).Checked?
    requires fetch(2).Fetched? && fetch(2).version != loaded[2].prodVer
    ensures var r := CheckAsWritten(loaded, t, force, fetch);
      && r.ending == Finished && r.disk == r.memory && r.disk[2] == loaded[2]
      && Looked(loaded[0], fetch(0), t, r.disk[0]) && Looked(loaded[1], fetch(1), t, r.disk[1])
  {
    var l0 := Land(loaded, 0, 0, 0, t, fetch);
    assert l0.ending == Finished && l0.cnt == 1 && l0.matched <= 1;
    var r0 := CheckLoopAsWritten(loaded, 2, [0, 1], 0, 0, t, force, fetch);
    assert [0, 1][0] == 0 && [0, 1][1..] + [2] == [1, 2];
    assert r0 == CheckLoopAsWritten(l0.records, 3, [1, 2], l0.cnt, l0.matched, t, force, fetch);
    assert r0 == (Progress(l0.records, Finished, l0.cnt, l0.matched), [1, 2]);
    assert [] + [0] == [0] && [0] + [1] == [0, 1];
    assert CheckLoopAsWritten(loaded, 1, [0], 0, 0, t, force, fetch) == r0;
    assert CheckLoopAsWritten(loaded, 0, [], 0, 0, t, force, fetch) == r0;
    assert l0.records[1] == loaded[1];
    var l1 := Land(l0.records, 1, l0.cnt, l0.matched, t, fetch);
    assert l1.records[2] == loaded[2];
    assert [1, 2][1..] == [2];
    assert Drain(l0.records, [1, 2], l0.cnt, l0.matched, t, fetch) == Drain(l1.records, [2], l1.cnt, l1.matched, t, fetch);
  }

  /** With no more pending records than free slots, every lookup is started
      without waiting, so no reply has been counted when the loop ends. */
  lemma {:induction false} FewPendingNeverLand(rs: seq<Record>, i: nat, flight: seq<nat>, matched: nat,
                                               t: Task, force: bool, fetch: int -> Fetched)
    requires i <= |rs| && |flight| <= 2 && InRange(flight, |rs|)
    requires |flight| + PendingCount(rs[i..], force) <= 2
    ensures var r := CheckLoopAsWritten(rs, i, flight, 0, matched, t, force, fetch).0;
      r == Progress(rs, Finished, 0, matched)
    decreases |rs| - i
  {
    if i < |rs| && matched < BatchSize(t) {
      PendingCountSplit(rs, i, force);
      if !Pending(rs[i], force) {
        FewPendingNeverLand(rs, i + 1, flight, matched, t, force, fetch);
      } else {
        FewPendingNeverLand(rs, i + 1, flight + [i], matched, t, force, fetch);
      }
    }
  }

  /** As written, a store with at most two pending records is never checked:
      the run ends without saving and without a verdict, however the lookups
      would have answered, so every rerun does the same. */
  lemma CheckAsWrittenFewPending(loaded: seq<Record>, t: Task, force: bool, fetch: int -> Fetched)
    requires PendingCount(loaded, force) <= 2
    ensures CheckAsWritten(loaded, t, force, fetch) == StageRun(loaded, loaded, Finished)
  {
    assert loaded[0..] == loaded;
    FewPendingNeverLand(loaded, 0, [], 0, t, force, fetch);
  }

  /** As written, the limit test sees only the replies that have arrived: with
      a batch limit of 1 and three pending records that all match, all three
      are matched and saved. */
  lemma CheckAsWrittenMatchesPastLimit(loaded: seq<Record>, t: Task, force: bool, fetch: int -> Fetched)
    requires |loaded| == 3 && BatchSize(t) == 1
    requires forall j | 0 <= j < 3 :: Pending(loaded[j], force)
    requires forall j | 0 <= j < 3 :: CheckRecord(loaded[j], fetch(j), t).Checked? && CheckRecord(loaded[j], fetch(j), t).matched
    ensures var r := CheckAsWritten(loaded, t, force, fetch);
      r.ending == Finished && forall j | 0 <= j < 3 :: r.disk[j].condition == Some(true)
  {
    var r0 := CheckLoopAsWritten(loaded, 2, [0, 1], 0, 0, t, force, fetch);
    var l := Land(loaded, 0, 0, 0, t, fetch);
    assert l.ending == Finished && l.matched == 1 && l.cnt == 1;
    assert [0, 1][0] == 0 && [0, 1][1..] + [2] == [1, 2];
    assert r0 == CheckLoopAsWritten(l.records, 3, [1, 2], 1, 1, t, force, fetch);
    assert r0 == (Progress(l.records, Finished, 1, 1), [1, 2]);
    var l1 := Land(l.records, 1, 1, 1, t, fetch);
    assert l.records[1] == loaded[1];
    var l2 := Land(l1.records, 2, 2, 2, t, fetch);
    assert l1.records[2] == loaded[2];
    assert Drain(l.records, [1, 2], 1, 1, t, fetch) == l2 by {
      assert [1, 2][1..] == [2];
      assert Drain(l1.records, [2], 2, 2, t, fetch) == Drain(l2.records, [], 3, 3, t, fetch);
    }
    assert [] + [0] == [0] && [0] + [1] == [0, 1];
    assert CheckLoopAsWritten(loaded, 1, [0], 0, 0, t, force, fetch) == r0;
    assert CheckLoopAsWritten(loaded, 0, [], 0, 0, t, force, fetch) == r0;
  }

  /** Taken one at a time, the same three records get only one match: the
      loop stops at the limit and the other two keep no verdict. */
  lemma CheckStopsAtLimit(loaded: seq<Record>, t: Task, force: bool, fetch: int -> Fetched)
    requires |loaded| == 3 && BatchSize(t) == 1
    requires forall j | 0 <= j < 3 :: Pending(loaded[j], force)
    requires forall j | 0 <= j < 3 :: CheckRecord(loaded[j], fetch(j), t).Checked? && CheckRecord(loaded[j], fetch(j), t).matched
    ensures var r := Check(loaded, t, force, fetch);
      r.ending == Finished && r.disk[1] == loaded[1] && r.disk[2] == loaded[2]
  {
    var p := CheckRecord(loaded[0], fetch(0), t).p;
    assert CheckLoop(loaded, 0, 0, 0, t, force, fetch) == Progress(loaded[0 := p], Finished, 1, 1);
  }
}
