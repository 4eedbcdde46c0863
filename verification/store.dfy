/** The record store of batchUpdateProperties.js: one record per property, the
    task configuration, and the pieces of HTTP replies the stages look at. */
module Store {
  import opened Wrappers
  import opened Strings
  import opened BatchTask

  /** One element of the `properties` array (see the field list at
      batchUpdateProperties.js:72-86). An absent field is `None`. */
  datatype Record = Record(
    id: string,
    name: string,
    cid: int,
    prodVer: int,
    condition: Option<bool>,
    prodVerConfig: Option<PropertyVersion>,
    newVerConfig: Option<PropertyVersion>,
    newVer: Option<int>,
    validId: Option<string>,
    newVerValidated: Option<bool>,
    newVerDeployed: Option<bool>,
    deploymentTaskId: Option<string>,
    error: Option<string>)

  /** A record as Find first stores it: only id, name, cid and prodVer set. */
  function Discovered(id: string, name: string, cid: int, prodVer: int): Record {
    Record(id, name, cid, prodVer, None, None, None, None, None, None, None, None, None)
  }

  /** `p.error` is truthy: an empty message does not count as an error. */
  predicate HasError(p: Record) {
    p.error.Some? && p.error.value != ""
  }

  /** `p.deploymentTaskId` is truthy. */
  predicate HasTaskId(p: Record) {
    p.deploymentTaskId.Some? && p.deploymentTaskId.value != ""
  }

  predicate UniqueIds(rs: seq<Record>) {
    forall i, j | 0 <= i < j < |rs| :: rs[i].id != rs[j].id
  }

  /** The task file (`taskConfig`): the predicate and the transform may throw,
      which `Err` stands for. */
  datatype Task = Task(
    customerId: int,
    operator: string,
    comments: string,
    batchLimit: Option<int>,
    condition: PropertyVersion -> Result<bool>,
    createVersion: PropertyVersion -> Result<PropertyVersion>)

  /** `updateN = taskConfig.batchLimit || 9999`: a missing or zero limit means 9999. */
  function BatchSize(t: Task): (n: int)
    ensures t.batchLimit.Some? && t.batchLimit.value != 0 ==> n == t.batchLimit.value
    ensures t.batchLimit.None? || t.batchLimit.value == 0 ==> n == 9999
  {
    if t.batchLimit.Some? && t.batchLimit.value != 0 then t.batchLimit.value else 9999
  }

  /** The example task of batchTask.template.js. Its `createVersion` iterates
      over `origins`, which throws a TypeError when they are missing. */
  const TemplateTask: Task := Task(
    1234, "Bin Ni", "change quantil.com origins to auto directConnection", Some(50),
    (pv: PropertyVersion) => Ok(Condition(pv)),
    (pv: PropertyVersion) => if pv.origins.None? then Err("nv.origins is not iterable") else Ok(CreateVersion(pv)))

  /** The reply to a POST: an HTTP status with its Location header, or a
      transport failure. */
  datatype Reply = Reply(status: int, location: Option<string>) | TransportFailure(message: string)

  /** `callServer` with `abortOnError: true` (the default of `buildAuth`) rejects
      its promise on a transport failure and on any status other than 200 and
      201; nothing in the stages catches that rejection. */
  predicate Rejected(r: Reply) {
    r.TransportFailure? || (r.status != 200 && r.status != 201)
  }

  /** `loc.substr(i + |marker|)` where `i = loc.indexOf(marker)`, accepted only
      when the suffix is not empty. */
  function IdAfter(loc: string, marker: string): (r: Option<string>)
    ensures r.Some? <==> Contains(loc, marker) && IndexOf(loc, marker) + |marker| < |loc|
    ensures r.Some? ==> |r.value| > 0
    ensures r.Some? ==>
      exists i | 0 <= i < |loc| ::
        && OccursAt(loc, marker, i)
        && (forall j | 0 <= j < i :: !OccursAt(loc, marker, j))
        && loc == loc[..i] + marker + r.value
  {
    var i := IndexOf(loc, marker);
    if i > -1 && i + |marker| < |loc| then
      var sfx := loc[i + |marker|..];
      assert loc == loc[..i] + marker + sfx;
      Some(sfx)
    else None
  }

  /** The Location header of a 201 reply, `''` when absent. */
  function Location201(r: Reply): Option<string> {
    if r.Reply? && r.status == 201 then Some(r.location.GetOr("")) else None
  }

  /** The new version number of a version creation: `Number(suffix)` after
      '/versions/', rejected when it is 0. */
  function CreatedVersion(r: Reply): (v: Option<int>)
    ensures v.Some? <==>
      && Location201(r).Some? && IdAfter(Location201(r).value, "/versions/").Some?
      && AllDigits(IdAfter(Location201(r).value, "/versions/").value)
      && DigitsValue(IdAfter(Location201(r).value, "/versions/").value) != 0
    ensures v.Some? ==> v.value > 0 && v.value == DigitsValue(IdAfter(Location201(r).value, "/versions/").value)
  {
    match Location201(r)
    case None => None
    case Some(loc) =>
      match IdAfter(loc, "/versions/")
      case None => None
      case Some(sfx) => if AllDigits(sfx) && DigitsValue(sfx) != 0 then Some(DigitsValue(sfx)) else None
  }

  /** `sfx == 0` for a digit string: it reads as the number 0. */
  predicate ReadsAsZero(sfx: string) {
    AllDigits(sfx) && DigitsValue(sfx) == 0
  }

  /** The validation id of a validation creation: the suffix after
      '/validations/', rejected when it reads as the number 0. */
  function CreatedValidation(r: Reply): (v: Option<string>)
    ensures v.Some? <==>
      && Location201(r).Some? && IdAfter(Location201(r).value, "/validations/").Some?
      && !ReadsAsZero(IdAfter(Location201(r).value, "/validations/").value)
    ensures v.Some? ==> IdAfter(Location201(r).value, "/validations/") == v && |v.value| > 0
  {
    match Location201(r)
    case None => None
    case Some(loc) =>
      match IdAfter(loc, "/validations/")
      case None => None
      case Some(sfx) => if ReadsAsZero(sfx) then None else Some(sfx)
  }

  /** The deployment task id: the suffix after '/deploymentTasks/'. */
  function CreatedDeploymentTask(r: Reply): (v: Option<string>)
    ensures v.Some? <==> Location201(r).Some? && IdAfter(Location201(r).value, "/deploymentTasks/").Some?
    ensures v.Some? ==> |v.value| > 0 && IdAfter(Location201(r).value, "/deploymentTasks/") == v
  {
    match Location201(r)
    case None => None
    case Some(loc) => IdAfter(loc, "/deploymentTasks/")
  }

  /** One reply while polling a validation or a deployment task: the `status`
      field of the body, or a failed request. */
  datatype Poll = Polled(status: string) | PollFailure(message: string)

  /** How a stage invocation ended. `Hung` is a poll that never reaches a
      terminal status: the process keeps polling until an operator kills it. */
  datatype Ending = Finished | Exited(code: int) | Crashed(reason: string) | Hung

  /** What a stage leaves behind: the store file (`disk`, the last `saveDB`),
      the in-memory array when the process stops, and how it stopped. */
  datatype StageRun = StageRun(disk: seq<Record>, memory: seq<Record>, ending: Ending)
}
