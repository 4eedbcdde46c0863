/** The example task of batchTask.template.js: find properties whose origins use a
    quantil.com server without `directConnection: 'auto'`, and switch those
    origins to `'auto'`. */
module BatchTask {
  import opened Wrappers
  import opened Strings

  /** One origin of a property version; `rest` stands for every other field,
      which the task neither reads nor writes. */
  datatype Origin = Origin(servers: seq<string>, directConnection: Option<string>, rest: string)

  /** A property version (`configs`), reduced to what the pipeline reads or writes. */
  datatype PropertyVersion = PropertyVersion(origins: Option<seq<Origin>>, description: Option<string>, rest: string)

  const QUANTIL := "quantil.com"
  const AUTO := "auto"

  /** `o.servers.some(s => s.includes('quantil.com'))` */
  predicate UsesQuantil(o: Origin) {
    exists i | 0 <= i < |o.servers| :: Contains(o.servers[i], QUANTIL)
  }

  /** An origin the task wants to change. */
  predicate NeedsChange(o: Origin) {
    UsesQuantil(o) && o.directConnection != Some(AUTO)
  }

  /** The `for (o of pv.origins)` loop of `condition`, returning at the first hit. */
  function AnyNeedsChange(os: seq<Origin>): (r: bool)
    ensures r <==> exists i | 0 <= i < |os| :: NeedsChange(os[i])
  {
    if |os| == 0 then false
    else if NeedsChange(os[0]) then true
    else
      assert forall i | 1 <= i < |os| :: os[i] == os[1..][i - 1];
      AnyNeedsChange(os[1..])
  }

  /** `taskConfig.condition(pv)` */
  function Condition(pv: PropertyVersion): (r: bool)
    ensures pv.origins.None? ==> !r
    ensures r <==> pv.origins.Some? && exists i | 0 <= i < |pv.origins.value| :: NeedsChange(pv.origins.value[i])
  {
    if pv.origins.None? then false else AnyNeedsChange(pv.origins.value)
  }

  /** The loop body of `createVersion` over every origin of the copy. */
  function SetAuto(os: seq<Origin>): (r: seq<Origin>)
    ensures |r| == |os|
    ensures forall i | 0 <= i < |os| ::
      r[i] == if UsesQuantil(os[i]) then os[i].(directConnection := Some(AUTO)) else os[i]
  {
    if |os| == 0 then []
    else
      var head := if UsesQuantil(os[0]) then os[0].(directConnection := Some(AUTO)) else os[0];
      [head] + SetAuto(os[1..])
  }

  /** `taskConfig.createVersion(pv)`: a copy of `pv` whose quantil.com origins are
      set to `directConnection: 'auto'`. The copy is a new value, so `pv` itself
      is left as it was. */
  function CreateVersion(pv: PropertyVersion): (r: PropertyVersion)
    requires pv.origins.Some?
    ensures r.origins.Some? && |r.origins.value| == |pv.origins.value|
    ensures forall i | 0 <= i < |pv.origins.value| ::
      var o, o' := pv.origins.value[i], r.origins.value[i];
      o'.servers == o.servers && o'.rest == o.rest &&
      (UsesQuantil(o) ==> o'.directConnection == Some(AUTO)) &&
      (!UsesQuantil(o) ==> o' == o)
    ensures r.description == pv.description && r.rest == pv.rest
  {
    pv.(origins := Some(SetAuto(pv.origins.value)))
  }

  /** `createVersion` may only be called on a version with origins; a version
      that satisfies `condition` has them. */
  lemma ConditionGuaranteesOrigins(pv: PropertyVersion)
    requires Condition(pv)
    ensures pv.origins.Some?
  {
  }

  /** Anti-reprocessing: the new version never satisfies `condition` again, so
      the run-time check at batchUpdateProperties.js:217-222 can never fire for
      this task. Only the origins matter, so it holds for any description. */
  lemma {:induction false} CreateVersionClearsCondition(pv: PropertyVersion, description: Option<string>)
    requires pv.origins.Some?
    ensures !Condition(CreateVersion(pv).(description := description))
  {
    var os := pv.origins.value;
    var os' := CreateVersion(pv).origins.value;
    forall i | 0 <= i < |os'| ensures !NeedsChange(os'[i]) {
      assert os'[i].servers == os[i].servers;
      assert UsesQuantil(os'[i]) == UsesQuantil(os[i]);
    }
  }

  /** Applying the transform a second time changes nothing. */
  lemma CreateVersionIsIdempotent(pv: PropertyVersion)
    requires pv.origins.Some?
    ensures CreateVersion(CreateVersion(pv)) == CreateVersion(pv)
  {
    var os := CreateVersion(pv).origins.value;
    var os2 := CreateVersion(CreateVersion(pv)).origins.value;
    assert |os2| == |os|;
    forall i | 0 <= i < |os| ensures os2[i] == os[i] {
      assert os[i].servers == pv.origins.value[i].servers;
    }
    assert os2 == os;
  }
}
