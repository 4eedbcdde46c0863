/** updateServiceQuotas.js: edit the list of advanced cache directives one
    customer's service quota allows. */
module ServiceQuotas {
  import opened Wrappers
  import opened Strings
  import opened Sorting
  import opened Directives
  import SystemConfigs

  /** An item the add action accepts: not allowed yet (nor earlier in the
      same call), not a base directive, and somewhere in the advanced list. */
  predicate Grantable(allowed: seq<string>, data: seq<string>, sys: SystemConfigs.SystemConfig) {
    forall i | 0 <= i < |data| ::
      && data[i] !in allowed && data[i] !in data[..i]
      && data[i] !in sys.baseDirectives && data[i] in sys.advancedDirectives
  }

  /** addDirective: the items are appended and the list sorted. */
  function Grant(data: seq<string>, allowed: seq<string>, sys: SystemConfigs.SystemConfig): (r: Result<seq<string>>)
    ensures r.Ok? <==> Grantable(allowed, data, sys)
    ensures r.Ok? ==> Sorted(r.value) && multiset(r.value) == multiset(allowed) + multiset(data)
  {
    var g := Guard(sys.baseDirectives, false, "is a base directive, no need to add to the serviceQuota");
    var h := Guard(sys.advancedDirectives, true, "is NOT a valid advanced directive in the systemConfig");
    AddableTwoGuards(allowed, data, g, h);
    match AddEach(allowed, data, "the serviceQuota", [g, h])
    case Err(m) => Err(m)
    case Ok(l) => Ok(Sort(l))
  }

  /** deleteDirective: every occurrence of each item goes, and the list is
      sorted; an item the list does not hold (any more) is refused. */
  function Revoke(data: seq<string>, allowed: seq<string>): (r: Result<seq<string>>)
    ensures r.Ok? <==> forall i | 0 <= i < |data| :: data[i] in allowed && data[i] !in data[..i]
    ensures r.Ok? ==> Sorted(r.value) && forall x :: multiset(r.value)[x] == if x in data then 0 else multiset(allowed)[x]
  {
    match DeleteEvery(allowed, data, "the serviceQuota")
    case Err(m) => Err(m)
    case Ok(l) => Ok(Sort(l))
  }

  /** `updateAllowedDirectives` behind the action check: the new value of
      `allowedCacheDirectives`, or `None` when the action is neither add nor
      delete and the patch object stays empty. */
  function QuotaPatch(action: string, data: seq<string>, allowed: seq<string>, sys: SystemConfigs.SystemConfig): Result<Option<seq<string>>> {
    if action == "addDirective" then
      match Grant(data, allowed, sys)
      case Err(m) => Err(m)
      case Ok(l) => Ok(Some(l))
    else if action == "deleteDirective" then
      match Revoke(data, allowed)
      case Err(m) => Err(m)
      case Ok(l) => Ok(Some(l))
    else Ok(None)
  }

  /** How a run of the script ends. */
  datatype Outcome =
    | Refused(message: string)
    | Declined
      /** The patch was sent; `verified` is whether every field it holds
          reads back equal. */
    | Applied(patch: Option<seq<string>>, verified: bool)

  /** `main()` from the parsed arguments on: `first` answers the question
      after the customer is shown, `second` the one before the patch is sent,
      and `fetched` is the allowed list read back afterwards. */
  function Run(action: string, arg: string, allowed: seq<string>, sys: SystemConfigs.SystemConfig,
               first: string, second: string, fetched: seq<string>): (r: Outcome)
    ensures r.Applied? ==> Confirmed(first) && Confirmed(second) && QuotaPatch(action, Split(arg, ','), allowed, sys) == Ok(r.patch)
    ensures r.Applied? ==> (r.verified <==> r.patch.None? || fetched == r.patch.value)
    ensures r.Refused? <==> Confirmed(first) && QuotaPatch(action, Split(arg, ','), allowed, sys).Err?
  {
    if !Confirmed(first) then Declined
    else
      match QuotaPatch(action, Split(arg, ','), allowed, sys)
      case Err(m) => Refused(m)
      case Ok(p) =>
        if !Confirmed(second) then Declined
        else Applied(p, p.None? || fetched == p.value)
  }

  /** An action other than the two known ones is not refused: after both
      confirmations an empty patch is sent and reported as verified. */
  lemma UnknownActionSendsEmptyPatch(action: string, arg: string, allowed: seq<string>, sys: SystemConfigs.SystemConfig, fetched: seq<string>)
    requires action != "addDirective" && action != "deleteDirective"
    ensures Run(action, arg, allowed, sys, "y", "y", fetched) == Applied(None, true)
  {
  }

  /** The add check accepts any entry of the advanced list, so an
      experimental directive, and the divider entry itself, can be granted. */
  lemma ExperimentalGrantable(allowed: seq<string>, sys: SystemConfigs.SystemConfig, d: string)
    requires d in sys.advancedDirectives && d !in sys.baseDirectives && d !in allowed
    ensures Grant([d], allowed, sys) == Ok(Sort(allowed + [d]))
  {
    assert [d][..0] == [];
  }

  /** Revoking distinct new items from a list that holds the original
      entries plus those items gives back the original entries, sorted. */
  lemma {:induction false} RevokeAfterAppend(data: seq<string>, allowed: seq<string>, l: seq<string>)
    requires multiset(l) == multiset(allowed) + multiset(data)
    requires forall i | 0 <= i < |data| :: data[i] !in allowed && data[i] !in data[..i]
    ensures Revoke(data, l) == Ok(Sort(allowed))
  {
    forall i | 0 <= i < |data| ensures data[i] in l {
      assert multiset(l)[data[i]] == multiset(allowed)[data[i]] + multiset(data)[data[i]];
    }
    var r := Revoke(data, l);
    forall x ensures multiset(r.value)[x] == multiset(allowed)[x] {
      if x in data {
        var i :| 0 <= i < |data| && data[i] == x;
      }
    }
    assert multiset(r.value) == multiset(allowed);
    SortedUnique(r.value, Sort(allowed));
  }

  /** Revoking the items just granted gives back the original list, sorted. */
  lemma RevokeUndoesGrant(data: seq<string>, allowed: seq<string>, sys: SystemConfigs.SystemConfig)
    requires Grant(data, allowed, sys).Ok?
    ensures Revoke(data, Grant(data, allowed, sys).value) == Ok(Sort(allowed))
  {
    assert Grantable(allowed, data, sys);
    RevokeAfterAppend(data, allowed, Grant(data, allowed, sys).value);
  }

  /** A successful edit leaves exactly the expected members: adding puts the
      items in, deleting takes them out, and nothing else changes. */
  lemma {:induction false} PatchMembers(action: string, data: seq<string>, allowed: seq<string>, sys: SystemConfigs.SystemConfig)
    requires QuotaPatch(action, data, allowed, sys).Ok?
    requires QuotaPatch(action, data, allowed, sys).value.Some?
    ensures action == "addDirective" ==>
      forall x :: x in QuotaPatch(action, data, allowed, sys).value.value <==> x in allowed || x in data
    ensures action == "deleteDirective" ==>
      forall x :: x in QuotaPatch(action, data, allowed, sys).value.value <==> x in allowed && x !in data
  {
    var l := QuotaPatch(action, data, allowed, sys).value.value;
    if action == "addDirective" {
      forall x ensures x in l <==> x in allowed || x in data {
        assert multiset(l)[x] == multiset(allowed)[x] + multiset(data)[x];
      }
    } else {
      forall x ensures x in l <==> x in allowed && x !in data {
        assert multiset(l)[x] == if x in data then 0 else multiset(allowed)[x];
      }
    }
  }
}
