/** The Deploy stage (`deployProperties` and `checkDeploymentStatus`): pick a
    batch of validated records of one customer, create one deployment task
    for them (or resume the one they already carry), and poll it. */
module DeployStage {
  import opened Wrappers
  import opened Store
  import NewStage

  /** Ready for deployment: validated, not yet deployed, no error
      (batchUpdateProperties.js:418). */
  predicate Eligible(p: Record) {
    p.newVerValidated == Some(true) && p.newVerDeployed.None? && !HasError(p)
  }

  /** The selection loop: store order, only records of the customer of the
      first pick, and a break when `cnt == updateN` (never, for updateN <= 0). */
  function SelectFrom(rs: seq<Record>, i: nat, cid: Option<int>, cnt: nat, updateN: int): (sel: seq<nat>)
    requires i <= |rs|
    decreases |rs| - i
  {
    if i == |rs| then []
    else if Eligible(rs[i]) && (cid.None? || rs[i].cid == cid.value) then
      if cnt + 1 == updateN then [i]
      else [i] + SelectFrom(rs, i + 1, Some(rs[i].cid), cnt + 1, updateN)
    else SelectFrom(rs, i + 1, cid, cnt, updateN)
  }

  /** The positions of the batch, `pList`. */
  function Select(rs: seq<Record>, updateN: int): seq<nat> {
    SelectFrom(rs, 0, None, 0, updateN)
  }

  /** Reference definition of the batch, first part: the positions from `i` on
      of eligible records of customer `c`, in order. */
  function EligibleOf(rs: seq<Record>, i: nat, c: int): seq<nat>
    requires i <= |rs|
    decreases |rs| - i
  {
    if i == |rs| then []
    else if Eligible(rs[i]) && rs[i].cid == c then [i] + EligibleOf(rs, i + 1, c)
    else EligibleOf(rs, i + 1, c)
  }

  /** `EligibleOf` holds exactly the eligible positions of the customer, in
      increasing order. */
  lemma {:induction false} EligibleOfFacts(rs: seq<Record>, i: nat, c: int)
    requires i <= |rs|
    ensures var r := EligibleOf(rs, i, c);
      && (forall j | 0 <= j < |r| :: i <= r[j] < |rs|)
      && (forall j | 0 <= j < |r| :: Eligible(rs[r[j]]) && rs[r[j]].cid == c)
      && (forall j, k | 0 <= j < k < |r| :: r[j] < r[k])
      && (forall k | i <= k < |rs| :: Eligible(rs[k]) && rs[k].cid == c ==> k in r)
    decreases |rs| - i
  {
    if i < |rs| {
      EligibleOfFacts(rs, i + 1, c);
      var r, r' := EligibleOf(rs, i, c), EligibleOf(rs, i + 1, c);
      if Eligible(rs[i]) && rs[i].cid == c {
        assert r == [i] + r';
        assert forall j | 1 <= j < |r| :: r[j] == r'[j - 1];
        assert i in r;
      } else {
        assert r == r';
      }
    }
  }

  /** The position of the first eligible record from `i` on. */
  function FirstEligible(rs: seq<Record>, i: nat): (r: Option<nat>)
    requires i <= |rs|
    ensures r.Some? ==> i <= r.value < |rs| && Eligible(rs[r.value])
    ensures r.Some? ==> forall k | i <= k < r.value :: !Eligible(rs[k])
    ensures r.None? ==> forall k | i <= k < |rs| :: !Eligible(rs[k])
    decreases |rs| - i
  {
    if i == |rs| then None
    else if Eligible(rs[i]) then Some(i)
    else FirstEligible(rs, i + 1)
  }

  /** The first `n` elements when `n` is positive and smaller than the
      length; everything otherwise. */
  function Limit(s: seq<nat>, n: int): (r: seq<nat>)
    ensures |r| <= |s| && r == s[..|r|]
    ensures n > 0 ==> |r| <= n
    ensures |r| < |s| ==> |r| == n
  {
    if 0 < n < |s| then s[..n] else s
  }

  /** Reference definition of the batch: all eligible records of the first
      eligible record's customer, cut at the batch limit. */
  function Batch(rs: seq<Record>, updateN: int): seq<nat> {
    match FirstEligible(rs, 0)
    case None => []
    case Some(k) => Limit(EligibleOf(rs, 0, rs[k].cid), updateN)
  }

  /** Before the first pick, skipping ineligible records does not change the
      eligible positions of any customer. */
  lemma {:induction false} EligibleOfSkips(rs: seq<Record>, i: nat, k: nat, c: int)
    requires i <= k <= |rs|
    requires forall j | i <= j < k :: !Eligible(rs[j])
    ensures EligibleOf(rs, i, c) == EligibleOf(rs, k, c)
    decreases k - i
  {
    if i < k {
      EligibleOfSkips(rs, i + 1, k, c);
    }
  }

  lemma {:induction false} SelectFromCustomer(rs: seq<Record>, i: nat, c: int, cnt: nat, updateN: int)
    requires i <= |rs|
    requires updateN <= 0 || cnt < updateN
    ensures SelectFrom(rs, i, Some(c), cnt, updateN) ==
      Limit(EligibleOf(rs, i, c), if updateN > 0 then updateN - cnt else 0)
    decreases |rs| - i
  {
    if i < |rs| {
      if Eligible(rs[i]) && rs[i].cid == c {
        assert EligibleOf(rs, i, c) == [i] + EligibleOf(rs, i + 1, c);
        if cnt + 1 != updateN {
          SelectFromCustomer(rs, i + 1, c, cnt + 1, updateN);
          LimitCons(i, EligibleOf(rs, i + 1, c), if updateN > 0 then updateN - cnt else 0);
        }
      } else {
        SelectFromCustomer(rs, i + 1, c, cnt, updateN);
      }
    }
  }

  /** The selection loop computes the reference batch. */
  lemma SelectIsBatch(rs: seq<Record>, updateN: int)
    ensures Select(rs, updateN) == Batch(rs, updateN)
  {
    SelectBeforeFirst(rs, 0, updateN);
  }

  lemma {:induction false} SelectBeforeFirst(rs: seq<Record>, i: nat, updateN: int)
    requires i <= |rs|
    ensures SelectFrom(rs, i, None, 0, updateN) ==
      match FirstEligible(rs, i)
      case None => []
      case Some(k) => Limit(EligibleOf(rs, i, rs[k].cid), updateN)
    decreases |rs| - i
  {
    if i < |rs| {
      if Eligible(rs[i]) {
        var c := rs[i].cid;
        assert EligibleOf(rs, i, c) == [i] + EligibleOf(rs, i + 1, c);
        if updateN != 1 {
          SelectFromCustomer(rs, i + 1, c, 1, updateN);
          LimitCons(i, EligibleOf(rs, i + 1, c), updateN);
        }
      } else {
        SelectBeforeFirst(rs, i + 1, updateN);
        match FirstEligible(rs, i + 1)
        case None =>
        case Some(k) => EligibleOfSkips(rs, i, i + 1, rs[k].cid);
      }
    }
  }

  /** Cutting a list with one more element in front at `n` is cutting the
      rest one shorter. */
  lemma LimitCons(x: nat, e: seq<nat>, n: int)
    requires n != 1
    ensures [x] + Limit(e, if n > 0 then n - 1 else 0) == Limit([x] + e, n)
  {
    if 1 < n < |e| + 1 {
      assert ([x] + e)[..n] == [x] + e[..n - 1];
    }
  }

  /** What the batch is: eligible records of one customer, in store order, no
      more than the limit, and every eligible record of that customer up to the
      limit. */
  lemma BatchFacts(rs: seq<Record>, updateN: int)
    ensures var sel := Select(rs, updateN);
      && (forall j | 0 <= j < |sel| :: sel[j] < |rs|)
      && (forall j | 0 <= j < |sel| :: Eligible(rs[sel[j]]) && rs[sel[j]].cid == rs[sel[0]].cid)
      && (forall j, k | 0 <= j < k < |sel| :: sel[j] < sel[k])
      && (updateN > 0 ==> |sel| <= updateN)
      && (|sel| == 0 <==> forall k | 0 <= k < |rs| :: !Eligible(rs[k]))
      && (|sel| > 0 && (updateN <= 0 || |sel| < updateN) ==>
            forall k | 0 <= k < |rs| :: Eligible(rs[k]) && rs[k].cid == rs[sel[0]].cid ==> k in sel)
  {
    SelectIsBatch(rs, updateN);
    match FirstEligible(rs, 0)
    case None =>
    case Some(k) =>
      EligibleOfFacts(rs, 0, rs[k].cid);
      var e := EligibleOf(rs, 0, rs[k].cid);
      assert k in e;
      var sel := Limit(e, updateN);
      assert |sel| > 0;
      assert sel[0] == e[0];
  }

  lemma SelectInRange(rs: seq<Record>, updateN: int)
    ensures forall j | 0 <= j < |Select(rs, updateN)| :: Select(rs, updateN)[j] < |rs|
  {
    BatchFacts(rs, updateN);
  }

  /** What the batch's task ids call for (batchUpdateProperties.js:431-441). */
  datatype DeployPlan = NothingToDeploy | Conflict | Resume(taskId: string) | Create

  /** `pList.some(p => !!p.deploymentTaskId)`, and then whether every record's
      id equals the first record's. */
  function Plan(rs: seq<Record>, sel: seq<nat>): (r: DeployPlan)
    requires forall j | 0 <= j < |sel| :: sel[j] < |rs|
    ensures r.Resume? ==> |r.taskId| > 0 && forall j | 0 <= j < |sel| :: rs[sel[j]].deploymentTaskId == Some(r.taskId)
    ensures r == Create <==> |sel| > 0 && forall j | 0 <= j < |sel| :: !HasTaskId(rs[sel[j]])
    ensures r == Conflict <==>
      (exists j | 0 <= j < |sel| :: HasTaskId(rs[sel[j]])) &&
      (exists j | 0 <= j < |sel| :: rs[sel[j]].deploymentTaskId != rs[sel[0]].deploymentTaskId)
    ensures r == NothingToDeploy <==> |sel| == 0
  {
    if |sel| == 0 then NothingToDeploy
    else if forall j | 0 <= j < |sel| :: !HasTaskId(rs[sel[j]]) then Create
    else if exists j | 0 <= j < |sel| :: rs[sel[j]].deploymentTaskId != rs[sel[0]].deploymentTaskId then Conflict
    else
      var j :| 0 <= j < |sel| && HasTaskId(rs[sel[j]]);
      Resume(rs[sel[0]].deploymentTaskId.value)
  }

  /** How `checkDeploymentStatus` ends. */
  datatype DeploymentEnd = Deployed | DeploymentFailed | DeploymentPollCrashed(message: string) | StillDeploying

  /** A deployment status that makes `checkDeploymentStatus` poll again; note
      the spelling 'inprogress', unlike the validation poll's 'in progress'. */
  predicate DeploymentBusy(s: string) {
    s == "waiting" || s == "inprogress"
  }

  function PollDeployment(ps: seq<Poll>): DeploymentEnd {
    if |ps| == 0 then StillDeploying
    else match ps[0]
      case PollFailure(m) => DeploymentPollCrashed(m)
      case Polled(s) =>
        if DeploymentBusy(s) then PollDeployment(ps[1..])
        else if s == "succeeded" then Deployed
        else DeploymentFailed
  }

  /** The first `k` replies all say 'waiting' or 'inprogress'. */
  predicate DeployingBefore(ps: seq<Poll>, k: nat)
    requires k <= |ps|
  {
    forall j | 0 <= j < k :: ps[j].Polled? && DeploymentBusy(ps[j].status)
  }

  /** A busy first reply moves the busy prefix one reply along. */
  lemma DeployingBeforeTail(ps: seq<Poll>, k: nat)
    requires 0 < k <= |ps|
    ensures DeployingBefore(ps, k) <==> ps[0].Polled? && DeploymentBusy(ps[0].status) && DeployingBefore(ps[1..], k - 1)
  {
    assert forall j | 1 <= j < k :: ps[j] == ps[1..][j - 1];
  }

  /** Polling deploys exactly when some reply says 'succeeded' and every
      earlier reply says 'waiting' or 'inprogress'. */
  lemma {:induction false} PollDeploys(ps: seq<Poll>)
    ensures PollDeployment(ps) == Deployed <==>
      exists k | 0 <= k < |ps| :: ps[k] == Polled("succeeded") && DeployingBefore(ps, k)
  {
    if |ps| > 0 && ps[0].Polled? && DeploymentBusy(ps[0].status) {
      PollDeploys(ps[1..]);
      if PollDeployment(ps) == Deployed {
        var k :| 0 <= k < |ps[1..]| && ps[1..][k] == Polled("succeeded") && DeployingBefore(ps[1..], k);
        DeployingBeforeTail(ps, k + 1);
        assert ps[k + 1] == Polled("succeeded");
      }
      if exists k | 0 <= k < |ps| :: ps[k] == Polled("succeeded") && DeployingBefore(ps, k) {
        var k :| 0 <= k < |ps| && ps[k] == Polled("succeeded") && DeployingBefore(ps, k);
        assert k > 0;
        DeployingBeforeTail(ps, k);
        assert ps[1..][k - 1] == Polled("succeeded");
      }
    } else if |ps| > 0 {
      assert forall k | 0 < k < |ps| :: !DeployingBefore(ps, k);
    }
  }

  /** Polling is still going on after the last reply exactly when every reply
      says 'waiting' or 'inprogress'. */
  lemma {:induction false} PollStillDeploying(ps: seq<Poll>)
    ensures PollDeployment(ps) == StillDeploying <==> DeployingBefore(ps, |ps|)
  {
    if |ps| > 0 {
      DeployingBeforeTail(ps, |ps|);
      if ps[0].Polled? && DeploymentBusy(ps[0].status) {
        PollStillDeploying(ps[1..]);
      }
    }
  }

  /** The two polls spell "in progress" differently: each treats the other's
      spelling as a failure. */
  lemma ProgressSpellingsDiffer()
    ensures NewStage.PollValidation([Polled("inprogress")]) == NewStage.ValidationFailed
    ensures PollDeployment([Polled("inprogress")]) == StillDeploying
    ensures NewStage.PollValidation([Polled("in progress")]) == NewStage.StillValidating
    ensures PollDeployment([Polled("in progress")]) == DeploymentFailed
  {
    assert [Polled("inprogress")][1..] == [];
    assert [Polled("in progress")][1..] == [];
  }

  /** The records at the batch's positions with one field replaced. */
  function Stamp(rs: seq<Record>, sel: seq<nat>, taskId: string): (r: seq<Record>)
    ensures |r| == |rs|
    ensures forall k | 0 <= k < |rs| :: r[k] == if k in sel then rs[k].(deploymentTaskId := Some(taskId)) else rs[k]
  {
    seq(|rs|, (k: int) requires 0 <= k < |rs| => if k in sel then rs[k].(deploymentTaskId := Some(taskId)) else rs[k])
  }

  function MarkDeployed(rs: seq<Record>, sel: seq<nat>): (r: seq<Record>)
    ensures |r| == |rs|
    ensures forall k | 0 <= k < |rs| :: r[k] == if k in sel then rs[k].(newVerDeployed := Some(true)) else rs[k]
  {
    seq(|rs|, (k: int) requires 0 <= k < |rs| => if k in sel then rs[k].(newVerDeployed := Some(true)) else rs[k])
  }

  /** What the outside world answers: the operator, the POST, the polls. */
  datatype DeployEnv = DeployEnv(answer: string, reply: Reply, polls: seq<Poll>)

  /** `checkDeploymentStatus(pList)`: 'succeeded' marks the batch deployed and
      saves; any other terminal status returns quietly. */
  function AfterDeploymentPoll(rs: seq<Record>, disk: seq<Record>, sel: seq<nat>, ps: seq<Poll>): StageRun {
    match PollDeployment(ps)
    case Deployed => var d := MarkDeployed(rs, sel); StageRun(d, d, Finished)
    case DeploymentFailed => StageRun(disk, rs, Finished)
    case DeploymentPollCrashed(m) => StageRun(disk, rs, Crashed(m))
    case StillDeploying => StageRun(disk, rs, Hung)
  }

  /** `deployProperties()`. */
  function Deploy(loaded: seq<Record>, env: DeployEnv, t: Task): (r: StageRun)
    ensures |r.memory| == |loaded| && |r.disk| == |loaded|
    ensures r.ending.Exited? ==> r.ending.code == 1 && r.disk == loaded
  {
    var sel := Select(loaded, BatchSize(t));
    SelectInRange(loaded, BatchSize(t));
    match Plan(loaded, sel)
    case NothingToDeploy => StageRun(loaded, loaded, Finished)
    case Conflict => StageRun(loaded, loaded, Exited(1))
    case Resume(id) => AfterDeploymentPoll(loaded, loaded, sel, env.polls)
    case Create =>
      if env.answer != "y" then StageRun(loaded, loaded, Finished)
      else if Rejected(env.reply) then StageRun(loaded, loaded, Crashed("deployment request rejected"))
      else match CreatedDeploymentTask(env.reply)
        case None => StageRun(loaded, loaded, Exited(1))
        case Some(id) =>
          var s := Stamp(loaded, sel, id);
          AfterDeploymentPoll(s, s, sel, env.polls)
  }

  /** Deploy writes only `deploymentTaskId` and `newVerDeployed`, and only on
      the batch; in particular it never records an error, not even when the
      deployment task fails. */
  lemma DeployTouchesOnlyBatch(loaded: seq<Record>, env: DeployEnv, t: Task)
    ensures var r := Deploy(loaded, env, t);
      var sel := Select(loaded, BatchSize(t));
      && (forall k | 0 <= k < |loaded| && k !in sel :: r.memory[k] == loaded[k] && r.disk[k] == loaded[k])
      && (forall k | 0 <= k < |loaded| ::
            r.memory[k] == loaded[k].(deploymentTaskId := r.memory[k].deploymentTaskId, newVerDeployed := r.memory[k].newVerDeployed))
      && (forall k | 0 <= k < |loaded| ::
            r.disk[k] == loaded[k].(deploymentTaskId := r.disk[k].deploymentTaskId, newVerDeployed := r.disk[k].newVerDeployed))
  {
    var sel := Select(loaded, BatchSize(t));
    SelectInRange(loaded, BatchSize(t));
    match Plan(loaded, sel)
    case Resume(id) => AfterDeploymentPollTouches(loaded, sel, env.polls);
    case Create =>
      if env.answer == "y" && !Rejected(env.reply) && CreatedDeploymentTask(env.reply).Some? {
        var s := Stamp(loaded, sel, CreatedDeploymentTask(env.reply).value);
        AfterDeploymentPollTouches(s, sel, env.polls);
      }
    case _ =>
  }

  lemma AfterDeploymentPollTouches(rs: seq<Record>, sel: seq<nat>, ps: seq<Poll>)
    ensures var r := AfterDeploymentPoll(rs, rs, sel, ps);
      && |r.memory| == |rs| && |r.disk| == |rs|
      && (forall k | 0 <= k < |rs| && k !in sel :: r.memory[k] == rs[k] && r.disk[k] == rs[k])
      && (forall k | 0 <= k < |rs| :: r.memory[k] == rs[k].(newVerDeployed := r.memory[k].newVerDeployed))
      && (forall k | 0 <= k < |rs| :: r.disk[k] == rs[k].(newVerDeployed := r.disk[k].newVerDeployed))
  {
  }

  /** The batch's task id, when the run got one: the id it already carried or
      the one just created. */
  function TaskIdOf(loaded: seq<Record>, env: DeployEnv, t: Task): Option<string> {
    var sel := Select(loaded, BatchSize(t));
    SelectInRange(loaded, BatchSize(t));
    match Plan(loaded, sel)
    case Resume(id) => Some(id)
    case Create =>
      if env.answer == "y" && !Rejected(env.reply) then CreatedDeploymentTask(env.reply) else None
    case _ => None
  }

  /** Once the batch has a task id, the store file holds it on every record of
      the batch before any poll, and a 'succeeded' poll marks the whole batch
      deployed, in memory and in the file. */
  lemma DeploymentOutcome(loaded: seq<Record>, env: DeployEnv, t: Task)
    requires TaskIdOf(loaded, env, t).Some?
    ensures var r := Deploy(loaded, env, t);
      var sel := Select(loaded, BatchSize(t));
      var id := TaskIdOf(loaded, env, t).value;
      && |sel| > 0
      && (forall j | 0 <= j < |sel| :: sel[j] < |loaded| && r.disk[sel[j]].deploymentTaskId == Some(id))
      && (PollDeployment(env.polls) == Deployed <==>
            r.ending == Finished && r.disk == r.memory && forall j | 0 <= j < |sel| :: r.disk[sel[j]].newVerDeployed == Some(true))
  {
    var sel := Select(loaded, BatchSize(t));
    var id := TaskIdOf(loaded, env, t).value;
    BatchFacts(loaded, BatchSize(t));
    match Plan(loaded, sel)
    case Resume(_) =>
      PollOutcome(loaded, sel, env.polls, id);
    case Create =>
      var s := Stamp(loaded, sel, id);
      assert forall j | 0 <= j < |sel| :: sel[j] in sel;
      PollOutcome(s, sel, env.polls, id);
  }

  /** The poll leaves the batch's task id in place, and marks the whole
      batch deployed exactly when it sees 'succeeded'. */
  lemma PollOutcome(rs: seq<Record>, sel: seq<nat>, ps: seq<Poll>, id: string)
    requires |sel| > 0 && forall j | 0 <= j < |sel| :: sel[j] < |rs| && rs[sel[j]].deploymentTaskId == Some(id)
    requires rs[sel[0]].newVerDeployed.None?
    ensures var r := AfterDeploymentPoll(rs, rs, sel, ps);
      && (forall j | 0 <= j < |sel| :: r.disk[sel[j]].deploymentTaskId == Some(id))
      && (PollDeployment(ps) == Deployed <==>
            r.ending == Finished && r.disk == r.memory && forall j | 0 <= j < |sel| :: r.disk[sel[j]].newVerDeployed == Some(true))
  {
    assert sel[0] in sel;
  }

  /** Selection looks only at eligibility and the customer, so stamping task
      ids does not change it. */
  lemma {:induction false} SelectFromIgnoresTaskIds(rs: seq<Record>, rs': seq<Record>, i: nat, cid: Option<int>, cnt: nat, updateN: int)
    requires i <= |rs| == |rs'|
    requires forall k | 0 <= k < |rs| :: rs'[k] == rs[k].(deploymentTaskId := rs'[k].deploymentTaskId)
    ensures SelectFrom(rs', i, cid, cnt, updateN) == SelectFrom(rs, i, cid, cnt, updateN)
    decreases |rs| - i
  {
    if i < |rs| {
      assert Eligible(rs'[i]) == Eligible(rs[i]) && rs'[i].cid == rs[i].cid;
      SelectFromIgnoresTaskIds(rs, rs', i + 1, Some(rs[i].cid), cnt + 1, updateN);
      SelectFromIgnoresTaskIds(rs, rs', i + 1, cid, cnt, updateN);
    }
  }

  /** A run that created a task but did not see it succeed (a failed task, a
      rejected poll, or a poll that never settles) leaves a file from which the
      next run selects the same batch and resumes polling the same task rather
      than creating another one. */
  lemma InterruptedDeploymentResumes(loaded: seq<Record>, env: DeployEnv, t: Task)
    requires TaskIdOf(loaded, env, t).Some?
    requires PollDeployment(env.polls) != Deployed
    ensures var r := Deploy(loaded, env, t);
      var sel := Select(loaded, BatchSize(t));
      && Select(r.disk, BatchSize(t)) == sel
      && (forall j | 0 <= j < |sel| :: sel[j] < |r.disk|)
      && Plan(r.disk, sel) == Resume(TaskIdOf(loaded, env, t).value)
  {
    var sel := Select(loaded, BatchSize(t));
    var id := TaskIdOf(loaded, env, t).value;
    SelectInRange(loaded, BatchSize(t));
    match Plan(loaded, sel)
    case Resume(_) =>
    case Create =>
      var s := Stamp(loaded, sel, id);
      assert Deploy(loaded, env, t).disk == s;
      SelectFromIgnoresTaskIds(loaded, s, 0, None, 0, BatchSize(t));
      StampedBatchResumes(loaded, sel, id);
  }

  /** A batch stamped with one task id is resumed with that id. */
  lemma StampedBatchResumes(rs: seq<Record>, sel: seq<nat>, id: string)
    requires |sel| > 0 && id != "" && forall j | 0 <= j < |sel| :: sel[j] < |rs|
    ensures Plan(Stamp(rs, sel, id), sel) == Resume(id)
  {
    var s := Stamp(rs, sel, id);
    assert forall j | 0 <= j < |sel| :: sel[j] in sel && s[sel[j]].deploymentTaskId == Some(id);
    assert HasTaskId(s[sel[0]]);
  }
}

