/** The New stage (`newProperties` and `checkValidationAsync`): create the new
    version after the operator agrees, start its validation and poll it. Each
    record's polling runs to its end before the next record is considered. */
module NewStage {
  import opened Wrappers
  import opened Strings
  import opened Store

  /** What the outside world answers for the record at each position: the
      operator's answer, the replies to the two POSTs, and the successive
      replies of the validation poll. */
  datatype NewEnv = NewEnv(
    answer: int -> string,
    versionReply: int -> Reply,
    validationReply: int -> Reply,
    polls: int -> seq<Poll>)

  /** The skip rule at batchUpdateProperties.js:266: already validated (unless
      forced), known not to match, or carrying an error. */
  predicate Skipped(p: Record, force: bool) {
    (p.newVerValidated.Some? && !force) || p.condition == Some(false) || HasError(p)
  }

  /** How `checkValidationAsync` ends. */
  datatype ValidationEnd = Validated | ValidationFailed | PollCrashed(message: string) | StillValidating

  /** A validation status that makes `checkValidationAsync` poll again. */
  predicate ValidationBusy(s: string) {
    s == "waiting" || s == "in progress"
  }

  /** Follows the poll replies: 'waiting' and 'in progress' poll again,
      'succeeded' validates, any other status fails; a failed request is an
      unhandled rejection. Running out of replies means it is still polling. */
  function PollValidation(ps: seq<Poll>): ValidationEnd {
    if |ps| == 0 then StillValidating
    else match ps[0]
      case PollFailure(m) => PollCrashed(m)
      case Polled(s) =>
        if ValidationBusy(s) then PollValidation(ps[1..])
        else if s == "succeeded" then Validated
        else ValidationFailed
  }

  /** The first `k` replies all say 'waiting' or 'in progress'. */
  predicate BusyBefore(ps: seq<Poll>, k: nat)
    requires k <= |ps|
  {
    forall j | 0 <= j < k :: ps[j].Polled? && ValidationBusy(ps[j].status)
  }

  /** A busy first reply moves the busy prefix one reply along. */
  lemma BusyBeforeTail(ps: seq<Poll>, k: nat)
    requires 0 < k <= |ps|
    ensures BusyBefore(ps, k) <==> ps[0].Polled? && ValidationBusy(ps[0].status) && BusyBefore(ps[1..], k - 1)
  {
    assert forall j | 1 <= j < k :: ps[j] == ps[1..][j - 1];
  }

  /** Polling validates exactly when some reply says 'succeeded' and every
      earlier reply says 'waiting' or 'in progress'. */
  lemma {:induction false} PollValidates(ps: seq<Poll>)
    ensures PollValidation(ps) == Validated <==>
      exists k | 0 <= k < |ps| :: ps[k] == Polled("succeeded") && BusyBefore(ps, k)
  {
    if |ps| > 0 && ps[0].Polled? && ValidationBusy(ps[0].status) {
      PollValidates(ps[1..]);
      if PollValidation(ps) == Validated {
        var k :| 0 <= k < |ps[1..]| && ps[1..][k] == Polled("succeeded") && BusyBefore(ps[1..], k);
        BusyBeforeTail(ps, k + 1);
        assert ps[k + 1] == Polled("succeeded");
      }
      if exists k | 0 <= k < |ps| :: ps[k] == Polled("succeeded") && BusyBefore(ps, k) {
        var k :| 0 <= k < |ps| && ps[k] == Polled("succeeded") && BusyBefore(ps, k);
        assert k > 0;
        BusyBeforeTail(ps, k);
        assert ps[1..][k - 1] == Polled("succeeded");
      }
    } else if |ps| > 0 {
      assert forall k | 0 < k < |ps| :: !BusyBefore(ps, k);
    }
  }

  /** Polling is still going on after the last reply exactly when every reply
      says 'waiting' or 'in progress'. */
  lemma {:induction false} PollStillValidating(ps: seq<Poll>)
    ensures PollValidation(ps) == StillValidating <==> BusyBefore(ps, |ps|)
  {
    if |ps| > 0 {
      BusyBeforeTail(ps, |ps|);
      if ps[0].Polled? && ValidationBusy(ps[0].status) {
        PollStillValidating(ps[1..]);
      }
    }
  }

  /** What processing one record produced: the record in memory, the record as
      last saved while processing it (if saved), how the process stopped (if it
      did), and whether the record reached `cnt++`. */
  datatype RecordRun = RecordRun(p: Record, saved: Option<Record>, stop: Option<Ending>, counted: bool)

  /** The fields New never writes. */
  predicate Unwritten(p: Record, q: Record) {
    && p.id == q.id && p.name == q.name && p.cid == q.cid && p.prodVer == q.prodVer
    && p.condition == q.condition && p.prodVerConfig == q.prodVerConfig && p.newVerConfig == q.newVerConfig
  }

  function VersionText(p: Record): string {
    if p.newVer.Some? then IntToString(p.newVer.value) else "undefined"
  }

  /** The polling step and its outcome for a record whose validation id is set. */
  function AfterPoll(p: Record, saved: Option<Record>, ps: seq<Poll>): (r: RecordRun)
    requires p.newVerValidated.None?
    ensures Unwritten(p, r.p) && r.p.newVer == p.newVer && r.p.validId == p.validId && r.counted
    ensures r.p.newVerValidated == Some(true) <==> PollValidation(ps) == Validated
    ensures r.stop == Some(Hung) ==> r.p == p && r.saved == saved
    ensures r.saved != saved ==> r.saved == Some(r.p) && r.p.newVerValidated == Some(false)
    ensures r.stop == Some(Exited(1)) <==> PollValidation(ps) == ValidationFailed
    ensures PollValidation(ps) == ValidationFailed ==>
      r.p.newVerValidated == Some(false) && HasError(r.p) && r.saved == Some(r.p)
    ensures PollValidation(ps).PollCrashed? ==>
      r.p == p && r.saved == saved && r.stop == Some(Crashed(PollValidation(ps).message))
    ensures r.stop.None? <==> PollValidation(ps) == Validated
    ensures r.stop == Some(Hung) <==> PollValidation(ps) == StillValidating
  {
    match PollValidation(ps)
    case Validated => RecordRun(p.(newVerValidated := Some(true)), saved, None, true)
    case ValidationFailed =>
      var q := p.(newVerValidated := Some(false),
                  error := Some("validation of property " + p.id + " version " + VersionText(p) + " failed."));
      RecordRun(q, Some(q), Some(Exited(1)), true)
    case PollCrashed(m) => RecordRun(p, saved, Some(Crashed(m)), true)
    case StillValidating => RecordRun(p, saved, Some(Hung), true)
  }

  /** The record's validation gets polled: it already has an id that is not
      forced away, or a fresh validation was started. */
  predicate ReachesPoll(p: Record, i: int, env: NewEnv, force: bool) {
    (p.validId.Some? && !force) || CreatedValidation(env.validationReply(i)).Some?
  }

  /** The validation part of the loop body (batchUpdateProperties.js:318-360). */
  function Validate(p: Record, saved: Option<Record>, i: int, env: NewEnv, force: bool): (r: RecordRun)
    ensures Unwritten(p, r.p) && r.p.newVer == p.newVer
    ensures r.saved.Some? && r.saved != saved ==> Unwritten(p, r.saved.value) && r.saved.value.newVer == p.newVer
    ensures r.p.newVerValidated == Some(true) ==> PollValidation(env.polls(i)) == Validated && r.p.validId.Some?
    ensures r.stop == Some(Hung) ==> r.p.validId.Some? && r.p.newVerValidated.None?
    ensures r.stop == Some(Hung) && (p.validId.None? || force) ==>
      r.saved.Some? && r.saved.value.validId.Some? && r.saved.value.newVerValidated.None? && r.saved.value.error == p.error
    ensures saved.Some? ==> r.saved.Some?
    ensures r.stop == Some(Exited(1)) ==> HasError(r.p)
    ensures p.validId.Some? && !force ==> r.p.validId == p.validId && (r.saved == saved || r.stop == Some(Exited(1)))
    ensures p.validId.None? || force ==>
      var reply := env.validationReply(i);
      && (Rejected(reply) ==> r.stop.Some? && r.stop.value.Crashed? && r.saved == saved && r.p.validId.None?)
      && (!Rejected(reply) && CreatedValidation(reply).None? ==>
            HasError(r.p) && r.stop == Some(Exited(1)) && r.saved == saved && r.p.validId.None?)
      && (CreatedValidation(reply).Some? ==>
            r.p.validId == CreatedValidation(reply) && r.saved.Some? && r.saved.value.validId == CreatedValidation(reply))
    ensures ReachesPoll(p, i, env, force) ==>
      var v := PollValidation(env.polls(i));
      && r.counted && r.p.validId.Some?
      && (r.p.newVerValidated == Some(true) <==> v == Validated)
      && (r.stop.None? <==> v == Validated)
      && (r.stop == Some(Exited(1)) <==> v == ValidationFailed)
      && (r.stop == Some(Hung) <==> v == StillValidating)
      && (v == ValidationFailed ==> r.p.newVerValidated == Some(false) && HasError(r.p) && r.saved == Some(r.p))
  {
    var p1 := p.(newVerValidated := None, deploymentTaskId := None, newVerDeployed := None);
    var p2 := if force then p1.(validId := None) else p1;
    if p2.validId.Some? then AfterPoll(p2, saved, env.polls(i))
    else
      var reply := env.validationReply(i);
      if Rejected(reply) then RecordRun(p2, saved, Some(Crashed("validation request rejected")), false)
      else match CreatedValidation(reply)
        case None =>
          var q := p2.(error := Some("failed to start validation for new version for " + p.id + "status=" + IntToString(reply.status)));
          RecordRun(q, saved, Some(Exited(1)), false)
        case Some(v) =>
          var q := p2.(validId := Some(v));
          AfterPoll(q, Some(q), env.polls(i))
  }

  /** The record at `i` gets as far as polling its validation: it has a new
      version and reaches the poll, or the operator agrees and both the
      version and its validation are created. */
  predicate RecordReachesPoll(p: Record, i: int, env: NewEnv, force: bool) {
    && !Skipped(p, force) && p.newVerConfig.Some?
    && (p.newVer.Some? ==> ReachesPoll(p, i, env, force))
    && (p.newVer.None? ==>
          env.answer(i) == "y" && CreatedVersion(env.versionReply(i)).Some? && CreatedValidation(env.validationReply(i)).Some?)
  }

  /** One iteration of the loop of `newProperties` for the record at `i`. */
  function NewRecord(p: Record, i: int, env: NewEnv, force: bool): (r: RecordRun)
    ensures Unwritten(p, r.p)
    ensures Skipped(p, force) ==> r == RecordRun(p, None, None, false)
    ensures !Skipped(p, force) && p.newVerConfig.None? ==> r.p.error.Some? && r.stop.None? && r.saved.None? && !r.counted
    ensures !Skipped(p, force) && p.newVerConfig.Some? && p.newVer.None? && env.answer(i) != "y" ==>
      r == RecordRun(p, None, None, false)
    ensures r.saved.Some? ==> r.saved.value.newVer.Some? && Unwritten(p, r.saved.value)
    ensures p.newVerValidated != Some(true) && r.p.newVerValidated == Some(true) ==>
      PollValidation(env.polls(i)) == Validated && r.p.validId.Some? && r.p.newVer.Some?
    ensures r.stop == Some(Hung) ==> r.p.validId.Some? && r.p.newVerValidated.None?
    ensures r.stop == Some(Hung) && (p.validId.None? || force) ==>
      r.saved.Some? && r.saved.value.validId.Some? && r.saved.value.newVerValidated.None? && r.saved.value.error == p.error
    ensures p.newVer.None? && r.p.newVer.Some? ==> r.p.newVer == CreatedVersion(env.versionReply(i))
    ensures r.stop == Some(Exited(1)) ==> HasError(r.p)
    ensures !Skipped(p, force) && p.newVerConfig.Some? && p.newVer.None? && env.answer(i) == "y" ==>
      var reply := env.versionReply(i);
      && (Rejected(reply) ==> r.stop.Some? && r.stop.value.Crashed? && r.saved.None? && r.p == p)
      && (!Rejected(reply) && CreatedVersion(reply).None? ==>
            HasError(r.p) && r.stop == Some(Exited(1)) && r.saved.None? && r.p.newVer.None?)
      && (CreatedVersion(reply).Some? ==>
            r.p.newVer == CreatedVersion(reply) && r.saved.Some? && r.saved.value.newVer == CreatedVersion(reply))
    ensures RecordReachesPoll(p, i, env, force) ==>
      var v := PollValidation(env.polls(i));
      && r.counted && r.p.newVer.Some? && r.p.validId.Some?
      && (r.p.newVerValidated == Some(true) <==> v == Validated)
      && (r.stop.None? <==> v == Validated)
      && (r.stop == Some(Exited(1)) <==> v == ValidationFailed)
      && (r.stop == Some(Hung) <==> v == StillValidating)
      && (v == ValidationFailed ==> r.p.newVerValidated == Some(false) && HasError(r.p) && r.saved == Some(r.p))
  {
    if Skipped(p, force) then RecordRun(p, None, None, false)
    else if p.newVerConfig.None? then
      RecordRun(p.(error := Some("new version is empty for property " + p.id + ".")), None, None, false)
    else if p.newVer.Some? then
      Validate(p, None, i, env, force)
    else if env.answer(i) != "y" then RecordRun(p, None, None, false)
    else
      var reply := env.versionReply(i);
      if Rejected(reply) then RecordRun(p, None, Some(Crashed("version request rejected")), false)
      else match CreatedVersion(reply)
        case None =>
          var q := p.(error := Some("failed to create new version for " + p.id + ". status=" + IntToString(reply.status)));
          RecordRun(q, None, Some(Exited(1)), false)
        case Some(n) =>
          var q := p.(newVer := Some(n), validId := None);
          Validate(q, Some(q), i, env, force)
  }

  /** The loop state of `newProperties`: records in memory, the store as last
      saved, how the loop ended, and `cnt`. */
  datatype NewProgress = NewProgress(records: seq<Record>, disk: seq<Record>, ending: Ending, cnt: nat)

  /** What one iteration does to the record at a position. */
  type Step = (Record, int) -> RecordRun

  /** The loop of `newProperties`, over the iteration `step`: a stop ends the
      process, and after `cnt++` the loop breaks once `cnt > updateN`. */
  function NewLoop(rs: seq<Record>, disk: seq<Record>, i: nat, cnt: nat, step: Step, updateN: int): (r: NewProgress)
    requires i <= |rs|
    ensures |r.records| == |rs| && (|disk| == |rs| ==> |r.disk| == |rs|)
    decreases |rs| - i
  {
    if i == |rs| then NewProgress(rs, disk, Finished, cnt)
    else
      var rr := step(rs[i], i);
      var rs' := rs[i := rr.p];
      var disk' := if rr.saved.Some? then rs[i := rr.saved.value] else disk;
      if rr.stop.Some? then NewProgress(rs', disk', rr.stop.value, cnt)
      else if !rr.counted then NewLoop(rs', disk', i + 1, cnt, step, updateN)
      else if cnt + 1 > updateN then NewProgress(rs', disk', Finished, cnt + 1)
      else NewLoop(rs', disk', i + 1, cnt + 1, step, updateN)
  }

  function Max0(n: int): nat {
    if n > 0 then n else 0
  }

  /** Only New's own fields change, records before `i` stay as they were, and
      a snapshot covers the whole store. */
  lemma {:induction false} NewLoopShape(rs: seq<Record>, disk: seq<Record>, i: nat, cnt: nat, step: Step, updateN: int)
    requires i <= |rs|
    requires |disk| == |rs|
    requires forall p: Record, k: int :: Unwritten(p, step(p, k).p)
    ensures var r := NewLoop(rs, disk, i, cnt, step, updateN);
      && |r.records| == |rs| && |r.disk| == |rs|
      && (forall j | 0 <= j < |rs| :: Unwritten(rs[j], r.records[j]))
      && (forall j | 0 <= j < i :: r.records[j] == rs[j])
    decreases |rs| - i
  {
    if i < |rs| {
      var rr := step(rs[i], i);
      var rs' := rs[i := rr.p];
      var disk' := if rr.saved.Some? then rs[i := rr.saved.value] else disk;
      if rr.stop.None? {
        if !rr.counted {
          NewLoopShape(rs', disk', i + 1, cnt, step, updateN);
        } else if cnt + 1 <= updateN {
          NewLoopShape(rs', disk', i + 1, cnt + 1, step, updateN);
        }
      }
    }
  }

  /** A skipped record is left alone, in memory and in every snapshot. */
  lemma {:induction false} NewLoopLeavesSkipped(rs: seq<Record>, disk: seq<Record>, i: nat, cnt: nat, step: Step, updateN: int, force: bool)
    requires i <= |rs|
    requires |disk| == |rs|
    requires forall j | i <= j < |rs| :: disk[j] == rs[j]
    requires forall p: Record, k: int :: Skipped(p, force) ==> step(p, k) == RecordRun(p, None, None, false)
    ensures var r := NewLoop(rs, disk, i, cnt, step, updateN);
      forall j | i <= j < |rs| :: Skipped(rs[j], force) ==> r.records[j] == rs[j] && r.disk[j] == rs[j]
    decreases |rs| - i
  {
    if i < |rs| {
      var rr := step(rs[i], i);
      var rs' := rs[i := rr.p];
      var disk' := if rr.saved.Some? then rs[i := rr.saved.value] else disk;
      if rr.stop.None? {
        if !rr.counted {
          NewLoopLeavesSkipped(rs', disk', i + 1, cnt, step, updateN, force);
          NewLoopKeepsPrefix(rs', disk', i + 1, cnt, step, updateN);
        } else if cnt + 1 <= updateN {
          NewLoopLeavesSkipped(rs', disk', i + 1, cnt + 1, step, updateN, force);
          NewLoopKeepsPrefix(rs', disk', i + 1, cnt + 1, step, updateN);
        }
      }
    }
  }

  /** A record only becomes validated when its poll said 'succeeded'. */
  lemma {:induction false} NewLoopValidatesOnlySucceeded(rs: seq<Record>, disk: seq<Record>, i: nat, cnt: nat, step: Step, updateN: int, polls: int -> seq<Poll>)
    requires i <= |rs| && |disk| == |rs|
    requires forall p: Record, k: int :: p.newVerValidated != Some(true) && step(p, k).p.newVerValidated == Some(true) ==>
      PollValidation(polls(k)) == Validated
    ensures var r := NewLoop(rs, disk, i, cnt, step, updateN);
      forall j | i <= j < |rs| :: rs[j].newVerValidated != Some(true) && r.records[j].newVerValidated == Some(true) ==>
        PollValidation(polls(j)) == Validated
    decreases |rs| - i
  {
    if i < |rs| {
      var rr := step(rs[i], i);
      var rs' := rs[i := rr.p];
      var disk' := if rr.saved.Some? then rs[i := rr.saved.value] else disk;
      if rr.stop.None? {
        if !rr.counted {
          NewLoopValidatesOnlySucceeded(rs', disk', i + 1, cnt, step, updateN, polls);
          NewLoopKeepsPrefix(rs', disk', i + 1, cnt, step, updateN);
        } else if cnt + 1 <= updateN {
          NewLoopValidatesOnlySucceeded(rs', disk', i + 1, cnt + 1, step, updateN, polls);
          NewLoopKeepsPrefix(rs', disk', i + 1, cnt + 1, step, updateN);
        }
      }
    }
  }

  /** At most one record more than `updateN` reaches `cnt++`. */
  lemma {:induction false} NewLoopCount(rs: seq<Record>, disk: seq<Record>, i: nat, cnt: nat, step: Step, updateN: int)
    requires i <= |rs|
    requires cnt <= Max0(updateN)
    ensures var r := NewLoop(rs, disk, i, cnt, step, updateN);
      cnt <= r.cnt <= Max0(updateN) + 1
    decreases |rs| - i
  {
    if i < |rs| {
      var rr := step(rs[i], i);
      var rs' := rs[i := rr.p];
      var disk' := if rr.saved.Some? then rs[i := rr.saved.value] else disk;
      if rr.stop.None? {
        if !rr.counted {
          NewLoopCount(rs', disk', i + 1, cnt, step, updateN);
        } else if cnt + 1 <= updateN {
          NewLoopCount(rs', disk', i + 1, cnt + 1, step, updateN);
        }
      }
    }
  }

  /** The iteration of `newProperties` with the given outside world. */
  function NewStep(env: NewEnv, force: bool): Step {
    (p: Record, k: int) => NewRecord(p, k, env, force)
  }

  /** `newProperties(concurrency, force)`: the final save happens after a normal
      end with `cnt > 0`; an exit or an unhandled rejection leaves the file as
      last saved, and a poll that never settles leaves the process waiting. */
  function New(loaded: seq<Record>, env: NewEnv, force: bool, t: Task): (r: StageRun)
    ensures |r.memory| == |loaded| && |r.disk| == |loaded|
    ensures forall j | 0 <= j < |loaded| :: Unwritten(loaded[j], r.memory[j])
    ensures forall j | 0 <= j < |loaded| :: Skipped(loaded[j], force) ==> r.memory[j] == loaded[j] && r.disk[j] == loaded[j]
    ensures forall j | 0 <= j < |loaded| :: loaded[j].newVerValidated != Some(true) && r.memory[j].newVerValidated == Some(true) ==>
      PollValidation(env.polls(j)) == Validated
    ensures r.ending == Finished && Handled(loaded, env, force, t) > 0 ==> r.disk == r.memory
  {
    var step := NewStep(env, force);
    NewLoopShape(loaded, loaded, 0, 0, step, BatchSize(t));
    NewLoopLeavesSkipped(loaded, loaded, 0, 0, step, BatchSize(t), force);
    NewLoopValidatesOnlySucceeded(loaded, loaded, 0, 0, step, BatchSize(t), env.polls);
    var l := NewLoop(loaded, loaded, 0, 0, step, BatchSize(t));
    if l.ending == Finished && l.cnt > 0 then StageRun(l.records, l.records, Finished)
    else StageRun(l.disk, l.records, l.ending)
  }

  /** Number of records that reach `cnt++` in a run of New. */
  function Handled(loaded: seq<Record>, env: NewEnv, force: bool, t: Task): nat {
    NewLoop(loaded, loaded, 0, 0, NewStep(env, force), BatchSize(t)).cnt
  }

  /** The batch limit is overshot by at most one. */
  lemma HandledWithinLimit(loaded: seq<Record>, env: NewEnv, force: bool, t: Task)
    ensures Handled(loaded, env, force, t) <= Max0(BatchSize(t)) + 1
  {
    NewLoopCount(loaded, loaded, 0, 0, NewStep(env, force), BatchSize(t));
  }

  /** A record whose new version exists and whose validation was already
      started: New goes straight to polling. */
  predicate AwaitingValidation(p: Record) {
    && p.newVerValidated.None? && p.condition != Some(false) && !HasError(p)
    && p.newVerConfig.Some? && p.newVer.Some? && p.validId.Some?
  }

  /** Such a record is validated by a successful poll without any request
      other than the poll, and without a save. */
  lemma AwaitingRecordValidates(p: Record, i: int, env: NewEnv)
    requires AwaitingValidation(p) && PollValidation(env.polls(i)) == Validated
    ensures NewRecord(p, i, env, false) ==
      RecordRun(p.(newVerValidated := Some(true), deploymentTaskId := None, newVerDeployed := None), None, None, true)
  {
  }

  lemma {:induction false} NewLoopOvershoots(rs: seq<Record>, disk: seq<Record>, i: nat, cnt: nat, step: Step, updateN: int)
    requires i <= |rs| && |disk| == |rs| && 0 <= cnt <= updateN
    requires forall j | i <= j < |rs| ::
      (rs[j].newVerValidated != Some(true) && step(rs[j], j).stop.None? && step(rs[j], j).counted &&
       step(rs[j], j).p.newVerValidated == Some(true))
    requires |rs| - i > updateN - cnt
    ensures var r := NewLoop(rs, disk, i, cnt, step, updateN);
      && r.ending == Finished && r.cnt == updateN + 1
      && (forall j | i <= j < |rs| :: r.records[j].newVerValidated == Some(true) <==> j - i <= updateN - cnt)
      && (forall j | i <= j < |rs| :: j - i <= updateN - cnt ==> r.records[j] == step(rs[j], j).p)
    decreases |rs| - i
  {
    var rr := step(rs[i], i);
    var rs' := rs[i := rr.p];
    var disk' := if rr.saved.Some? then rs[i := rr.saved.value] else disk;
    if cnt + 1 <= updateN {
      NewLoopOvershoots(rs', disk', i + 1, cnt + 1, step, updateN);
      NewLoopKeepsPrefix(rs', disk', i + 1, cnt + 1, step, updateN);
    }
  }

  /** Records before `i` are not revisited, and a snapshot taken later holds
      them as they are in memory. */
  lemma {:induction false} NewLoopKeepsPrefix(rs: seq<Record>, disk: seq<Record>, i: nat, cnt: nat, step: Step, updateN: int)
    requires i <= |rs| && |disk| == |rs|
    ensures var r := NewLoop(rs, disk, i, cnt, step, updateN);
      forall j | 0 <= j < i :: r.records[j] == rs[j] && (disk[j] == rs[j] ==> r.disk[j] == rs[j])
    decreases |rs| - i
  {
    if i < |rs| {
      var rr := step(rs[i], i);
      var rs' := rs[i := rr.p];
      var disk' := if rr.saved.Some? then rs[i := rr.saved.value] else disk;
      if rr.stop.None? {
        if !rr.counted {
          NewLoopKeepsPrefix(rs', disk', i + 1, cnt, step, updateN);
        } else if cnt + 1 <= updateN {
          NewLoopKeepsPrefix(rs', disk', i + 1, cnt + 1, step, updateN);
        }
      }
    }
  }

  /** The loop breaks only once `cnt > updateN`: with the limit set to n >= 0 and
      more than n records waiting on a validation that succeeds, exactly the
      first n + 1 of them are validated. */
  lemma NewHandlesOneMoreThanBatchLimit(loaded: seq<Record>, env: NewEnv, t: Task)
    requires 0 <= BatchSize(t) < |loaded|
    requires forall j | 0 <= j < |loaded| :: AwaitingValidation(loaded[j]) && PollValidation(env.polls(j)) == Validated
    ensures Handled(loaded, env, false, t) == BatchSize(t) + 1
    ensures var r := New(loaded, env, false, t);
      && r.ending == Finished && r.disk == r.memory
      && forall j | 0 <= j < |loaded| :: r.memory[j].newVerValidated == Some(true) <==> j <= BatchSize(t)
  {
    forall j | 0 <= j < |loaded| {
      AwaitingRecordValidates(loaded[j], j, env);
    }
    NewLoopOvershoots(loaded, loaded, 0, 0, NewStep(env, false), BatchSize(t));
  }

  /** A record that has a candidate but no new version yet, whose creation
      the operator agrees to, and whose version, validation and poll all
      succeed. */
  predicate FreshSucceeds(p: Record, i: int, env: NewEnv) {
    && p.newVerValidated.None? && p.condition != Some(false) && !HasError(p)
    && p.newVerConfig.Some? && p.newVer.None?
    && env.answer(i) == "y" && CreatedVersion(env.versionReply(i)).Some?
    && CreatedValidation(env.validationReply(i)).Some? && PollValidation(env.polls(i)) == Validated
  }

  /** Such a record ends validated, carrying the created version number and
      validation id, which were saved before polling. */
  lemma FreshRecordValidates(p: Record, i: int, env: NewEnv)
    requires FreshSucceeds(p, i, env)
    ensures var r := NewRecord(p, i, env, false);
      && r.stop.None? && r.counted && r.p.newVerValidated == Some(true)
      && r.p.newVer == CreatedVersion(env.versionReply(i)) && r.p.validId == CreatedValidation(env.validationReply(i))
      && r.saved.Some? && r.saved.value.newVer == r.p.newVer && r.saved.value.validId == r.p.validId
  {
    assert RecordReachesPoll(p, i, env, false);
  }

  /** With the limit set to n >= 0 and more than n fresh records whose
      creation, validation and poll succeed, New creates, validates and saves
      exactly the first n + 1 of them, each with its created version number
      and validation id. */
  lemma NewCreatesAndValidates(loaded: seq<Record>, env: NewEnv, t: Task)
    requires 0 <= BatchSize(t) < |loaded|
    requires forall j | 0 <= j < |loaded| :: FreshSucceeds(loaded[j], j, env)
    ensures Handled(loaded, env, false, t) == BatchSize(t) + 1
    ensures var r := New(loaded, env, false, t);
      && r.ending == Finished && r.disk == r.memory
      && (forall j | 0 <= j < |loaded| :: r.memory[j].newVerValidated == Some(true) <==> j <= BatchSize(t))
      && (forall j | 0 <= j <= BatchSize(t) ::
            r.memory[j].newVer == CreatedVersion(env.versionReply(j)) &&
            r.memory[j].validId == CreatedValidation(env.validationReply(j)))
  {
    forall j | 0 <= j < |loaded| {
      FreshRecordValidates(loaded[j], j, env);
    }
    NewLoopOvershoots(loaded, loaded, 0, 0, NewStep(env, false), BatchSize(t));
  }

  /** A run interrupted while polling a freshly started validation leaves that
      validation's id in the store file, and a later run resumes polling it
      without asking the operator or sending either POST again. */
  lemma InterruptedValidationResumes(p: Record, i: int, env: NewEnv, env': NewEnv)
    requires !Skipped(p, false) && p.validId.None?
    requires NewRecord(p, i, env, false).stop == Some(Hung)
    requires env'.polls(i) == env.polls(i)
    ensures var s := NewRecord(p, i, env, false).saved;
      && s.Some? && s.value.validId.Some? && s.value.newVer.Some?
      && NewRecord(s.value, i, env', false) == NewRecord(s.value, i, env, false)
      && NewRecord(s.value, i, env, false).stop == Some(Hung)
  {
    var s := NewRecord(p, i, env, false).saved.value;
    assert !Skipped(s, false);
  }
}
