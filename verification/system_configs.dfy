/** updateSystemConfigs.js: edit the system-wide base or advanced directive
    list, where the advanced list holds an experimental section after a
    divider entry. */
module SystemConfigs {
  import opened Wrappers
  import opened Strings
  import opened Sorting
  import opened Directives

  /** The entry separating the advanced section from the experimental one. */
  const DIVIDER: string := "VVVVVVVVVVVVVV_Experimental_Below_VVVVVVVVVVVVVVVV"

  datatype SystemConfig = SystemConfig(baseDirectives: seq<string>, advancedDirectives: seq<string>)

  datatype Field = BaseField | AdvancedField

  /** 'baseDirectives' when the action mentions 'Base', else
      'advancedDirectives'. */
  function TargetField(action: string): (f: Field)
    ensures f == BaseField <==> Contains(action, "Base")
  {
    if IndexOf(action, "Base") != -1 then BaseField else AdvancedField
  }

  /** A string with no 'B' cannot contain "Base". */
  lemma NoBase(s: string)
    requires 'B' !in s
    ensures !Contains(s, "Base")
  {
    forall i | 0 <= i <= |s| ensures !OccursAt(s, "Base", i) {
      if i + 4 <= |s| {
        assert s[i..i + 4][0] == s[i];
      }
    }
  }

  /** The two base actions write `baseDirectives`, the other four
      `advancedDirectives`. */
  lemma ActionFields()
    ensures TargetField("addBaseDirectives") == BaseField
    ensures TargetField("deleteBaseDirectives") == BaseField
    ensures TargetField("addAdvancedDirectives") == AdvancedField
    ensures TargetField("deleteAdvancedDirectives") == AdvancedField
    ensures TargetField("addExperimentalDirectives") == AdvancedField
    ensures TargetField("deleteExperimentalDirectives") == AdvancedField
  {
    assert OccursAt("addBaseDirectives", "Base", 3);
    assert OccursAt("deleteBaseDirectives", "Base", 6);
    NoBase("addAdvancedDirectives");
    NoBase("deleteAdvancedDirectives");
    NoBase("addExperimentalDirectives");
    NoBase("deleteExperimentalDirectives");
  }

  function FieldOf(sc: SystemConfig, f: Field): seq<string> {
    if f == BaseField then sc.baseDirectives else sc.advancedDirectives
  }

  /** `list.indexOf(DIVIDER)`. */
  function DividerAt(list: seq<string>): (r: int)
    ensures r == -1 <==> DIVIDER !in list
    ensures r >= 0 ==> r < |list| && list[r] == DIVIDER && DIVIDER !in list[..r]
  {
    Find(list, DIVIDER)
  }

  /** `list.slice(0, divIdx)`: everything before the first divider; with no
      divider, `slice(0, -1)` drops the last entry. */
  function AdvancedPart(list: seq<string>): (r: seq<string>)
    ensures DIVIDER !in r
  {
    var k := DividerAt(list);
    if k >= 0 then list[..k]
    else if |list| == 0 then []
    else
      assert forall x | x in list[..|list| - 1] :: x in list;
      list[..|list| - 1]
  }

  /** `list.slice(divIdx + 1)`: everything after the first divider; with no
      divider, the whole list. */
  function ExperimentalPart(list: seq<string>): seq<string> {
    list[DividerAt(list) + 1..]
  }

  /** With a divider, the list is its advanced part, the divider, and its
      experimental part. */
  lemma PartsRejoin(list: seq<string>)
    requires DIVIDER in list
    ensures list == AdvancedPart(list) + [DIVIDER] + ExperimentalPart(list)
  {
  }

  /** The two sections sorted independently and rejoined around one divider;
      the base list is just sorted. */
  function Normalise(f: Field, list: seq<string>): (r: seq<string>)
    ensures f == BaseField ==> Sorted(r) && multiset(r) == multiset(list)
    ensures f == AdvancedField ==> DIVIDER in r
    ensures f == AdvancedField ==>
      AdvancedPart(r) == Sort(AdvancedPart(list)) && ExperimentalPart(r) == Sort(ExperimentalPart(list))
  {
    if f == BaseField then Sort(list)
    else
      var a, e := Sort(AdvancedPart(list)), Sort(ExperimentalPart(list));
      SortMembers(AdvancedPart(list));
      Rejoin(a, e);
      a + [DIVIDER] + e
  }

  /** With no divider in the list, every entry but the last lands in both
      sections, so normalising the list duplicates them. */
  lemma MissingDividerDuplicates(list: seq<string>)
    requires DIVIDER !in list && |list| > 0
    ensures multiset(Normalise(AdvancedField, list)) ==
      multiset(list[..|list| - 1]) + multiset{DIVIDER} + multiset(list)
  {
    assert list[0..] == list;
  }

  /** The advanced section of the current advanced list, sorted. */
  function Advanced(sc: SystemConfig): seq<string> {
    Sort(AdvancedPart(sc.advancedDirectives))
  }

  /** The experimental section of the current advanced list, sorted. */
  function Experimental(sc: SystemConfig): seq<string> {
    Sort(ExperimentalPart(sc.advancedDirectives))
  }

  /** Every item is distinct from the items before it and from every entry
      of the section it goes to, the other section and the base list. */
  predicate NewToAll(data: seq<string>, own: seq<string>, other: seq<string>, base: seq<string>) {
    forall i | 0 <= i < |data| ::
      data[i] !in own && data[i] !in data[..i] && data[i] !in base && data[i] !in other
  }

  /** `v` is a sorted arrangement of `m` followed by `tail`. */
  predicate SortedBefore(v: seq<string>, m: multiset<string>, tail: seq<string>) {
    var k := |v| - |tail|;
    0 <= k && Sorted(v[..k]) && multiset(v[..k]) == m && v[k..] == tail
  }

  /** `v` is `head` followed by a sorted arrangement of `m`. */
  predicate SortedAfter(head: seq<string>, v: seq<string>, m: multiset<string>) {
    |head| <= |v| && v[..|head|] == head && Sorted(v[|head|..]) && multiset(v[|head|..]) == m
  }

  /** addBaseDirectives: refused for an item already in the growing base list
      (so also for a repeated item) or anywhere in the advanced list; the new
      list is the old one plus the items, sorted. */
  function AddBase(data: seq<string>, sc: SystemConfig): (r: Result<seq<string>>)
    ensures r.Ok? <==> forall i | 0 <= i < |data| ::
      data[i] !in sc.baseDirectives && data[i] !in data[..i] && data[i] !in sc.advancedDirectives
    ensures r.Ok? ==> r.value == Sort(sc.baseDirectives + data)
  {
    var g := Guard(sc.advancedDirectives, false, "is in advancedDirectives, cannot add to baseDirectives");
    AddableOneGuard(sc.baseDirectives, data, g);
    match AddEach(sc.baseDirectives, data, "baseDirectives", [g])
    case Err(m) => Err(m)
    case Ok(l) =>
      Ok(Sort(l))
  }

  /** deleteBaseDirectives: refused for an item the base list does not hold
      (as often as it is listed); one occurrence goes per item, and the result
      is sorted. */
  function DeleteBase(data: seq<string>, sc: SystemConfig): (r: Result<seq<string>>)
    ensures r.Ok? <==> multiset(data) <= multiset(sc.baseDirectives)
    ensures r.Ok? ==> Sorted(r.value) && multiset(r.value) == multiset(sc.baseDirectives) - multiset(data)
  {
    match DeleteEach(sc.baseDirectives, data, "baseDirectives", (d: string) => 0)
    case Err(m) => Err(m)
    case Ok(l) =>
      Ok(Sort(l))
  }

  /** addAdvancedDirectives: refused for an item already advanced, base or
      experimental; the result is the advanced section with the items,
      sorted, the divider, and the experimental section unchanged. */
  function AddAdvanced(data: seq<string>, sc: SystemConfig): (r: Result<seq<string>>)
    ensures r.Ok? <==> NewToAll(data, AdvancedPart(sc.advancedDirectives), ExperimentalPart(sc.advancedDirectives), sc.baseDirectives)
    ensures r.Ok? ==> r.value == Sort(AdvancedPart(sc.advancedDirectives) + data) + [DIVIDER] + Experimental(sc)
  {
    var adv := Advanced(sc);
    var exp := Experimental(sc);
    var g := Guard(sc.baseDirectives, false, "is in baseDirectives, cannot add to advancedDirectives");
    var h := Guard(exp, false, "is in experimental Directives, cannot add to advancedDirectives");
    AddableToSection(AdvancedPart(sc.advancedDirectives), ExperimentalPart(sc.advancedDirectives), sc.baseDirectives, data, g.message, h.message);
    match AddEach(adv, data, "advancedDirectives", [g, h])
    case Err(m) => Err(m)
    case Ok(l) =>
      SortAppend(AdvancedPart(sc.advancedDirectives), data);
      Ok(Sort(l) + [DIVIDER] + exp)
  }

  /** deleteAdvancedDirectives: refused for an item the advanced section does
      not hold or that a service quota still allows; one occurrence goes per
      item, and the experimental section is unchanged. */
  function DeleteAdvanced(data: seq<string>, sc: SystemConfig, users: string -> nat): (r: Result<seq<string>>)
    ensures r.Ok? <==> Deletable(AdvancedPart(sc.advancedDirectives), data, users)
    ensures r.Ok? ==> SortedBefore(r.value, multiset(AdvancedPart(sc.advancedDirectives)) - multiset(data), [DIVIDER] + Experimental(sc))
  {
    var adv := Advanced(sc);
    match DeleteEach(adv, data, "advancedDirectives", users)
    case Err(m) => Err(m)
    case Ok(l) =>
      var t := [DIVIDER] + Experimental(sc);
      var v := Sort(l) + t;
      assert v[..|Sort(l)|] == Sort(l) && v[|Sort(l)|..] == t;
      assert SortedBefore(v, multiset(l), t);
      Ok(v)
  }

  /** addExperimentalDirectives, the mirror image: refused for an item
      already experimental, base or advanced; the advanced section is
      unchanged. */
  function AddExperimental(data: seq<string>, sc: SystemConfig): (r: Result<seq<string>>)
    ensures r.Ok? <==> NewToAll(data, ExperimentalPart(sc.advancedDirectives), AdvancedPart(sc.advancedDirectives), sc.baseDirectives)
    ensures r.Ok? ==> r.value == Advanced(sc) + [DIVIDER] + Sort(ExperimentalPart(sc.advancedDirectives) + data)
  {
    var adv := Advanced(sc);
    var exp := Experimental(sc);
    var g := Guard(sc.baseDirectives, false, "is in baseDirectives, cannot add to experimentalDirectives");
    var h := Guard(adv, false, "is in advanced Directives, cannot add to experimentalDirectives");
    AddableToSection(ExperimentalPart(sc.advancedDirectives), AdvancedPart(sc.advancedDirectives), sc.baseDirectives, data, g.message, h.message);
    match AddEach(exp, data, "experimentalDirectives", [g, h])
    case Err(m) => Err(m)
    case Ok(l) =>
      SortAppend(ExperimentalPart(sc.advancedDirectives), data);
      Ok(adv + [DIVIDER] + Sort(l))
  }

  /** deleteExperimentalDirectives, the mirror image of the advanced delete. */
  function DeleteExperimental(data: seq<string>, sc: SystemConfig, users: string -> nat): (r: Result<seq<string>>)
    ensures r.Ok? <==> Deletable(ExperimentalPart(sc.advancedDirectives), data, users)
    ensures r.Ok? ==> SortedAfter(Advanced(sc) + [DIVIDER], r.value, multiset(ExperimentalPart(sc.advancedDirectives)) - multiset(data))
  {
    var exp := Experimental(sc);
    match DeleteEach(exp, data, "experimentalDirectives", users)
    case Err(m) => Err(m)
    case Ok(l) =>
      var v := Advanced(sc) + [DIVIDER] + Sort(l);
      assert v[|Advanced(sc)| + 1..] == Sort(l);
      Ok(v)
  }

  /** Adding to one sorted section, guarded by the base list and the other
      sorted section, is allowed exactly for new, distinct items in none of
      the three. */
  lemma AddableToSection(own: seq<string>, other: seq<string>, base: seq<string>, data: seq<string>, m: string, m': string)
    ensures Addable(Sort(own), data, [Guard(base, false, m), Guard(Sort(other), false, m')]) <==> NewToAll(data, own, other, base)
  {
    SortMembers(own);
    SortMembers(other);
    AddableTwoGuards(Sort(own), data, Guard(base, false, m), Guard(Sort(other), false, m'));
  }

  /** The new value of the target field, or the message the process exits
      with. `users(d)` is the number of service quotas allowing `d`, asked
      before an advanced or experimental item is deleted. */
  function Patch(action: string, data: seq<string>, sc: SystemConfig, users: string -> nat): Result<seq<string>> {
    if action == "addBaseDirectives" then AddBase(data, sc)
    else if action == "deleteBaseDirectives" then DeleteBase(data, sc)
    else if action == "addAdvancedDirectives" then AddAdvanced(data, sc)
    else if action == "deleteAdvancedDirectives" then DeleteAdvanced(data, sc, users)
    else if action == "addExperimentalDirectives" then AddExperimental(data, sc)
    else if action == "deleteExperimentalDirectives" then DeleteExperimental(data, sc, users)
    else Err("action must be one of {add/delete}{Base/Advanced/Experimental}Directives")
  }

  /** How a run of the script ends. */
  datatype Outcome =
    | Refused(message: string)
    | Declined
      /** The patch was sent; `verified` is whether the re-fetched field,
          normalised, equals it. */
    | Applied(patch: seq<string>, verified: bool)

  /** `main()` from the parsed arguments on: `arg` is the comma-separated item
      list, `answer` the operator's reply, `fetched` the configuration read
      back after the patch. */
  function Run(action: string, arg: string, sc: SystemConfig, users: string -> nat, answer: string, fetched: SystemConfig): (r: Outcome)
    ensures r.Applied? ==> Confirmed(answer) && Patch(action, Split(arg, ','), sc, users) == Ok(r.patch)
    ensures r.Applied? ==> (r.verified <==> Normalise(TargetField(action), FieldOf(fetched, TargetField(action))) == r.patch)
    ensures r.Refused? <==> Patch(action, Split(arg, ','), sc, users).Err?
  {
    match Patch(action, Split(arg, ','), sc, users)
    case Err(m) => Refused(m)
    case Ok(p) =>
      if !Confirmed(answer) then Declined
      else
        var f := TargetField(action);
        Applied(p, Normalise(f, FieldOf(fetched, f)) == p)
  }

  /** A list with one divider between two divider-free sections splits back
      into those sections. */
  lemma {:induction false} Rejoin(a: seq<string>, e: seq<string>)
    requires DIVIDER !in a
    ensures AdvancedPart(a + [DIVIDER] + e) == a
    ensures ExperimentalPart(a + [DIVIDER] + e) == e
  {
    var l := a + [DIVIDER] + e;
    assert forall j | 0 <= j < |a| :: l[j] == a[j];
    assert forall j | |a| < j <= |l| :: l[..j][|a|] == DIVIDER;
    assert DividerAt(l) == |a|;
    assert l[..|a|] == a;
    assert l[|a| + 1..] == e;
  }

  /** Two sorted sections around one divider are already normal. */
  lemma NormalShape(a: seq<string>, e: seq<string>)
    requires Sorted(a) && Sorted(e) && DIVIDER !in a
    ensures Normalise(AdvancedField, a + [DIVIDER] + e) == a + [DIVIDER] + e
  {
    Rejoin(a, e);
    SortOfSorted(a);
    SortOfSorted(e);
  }

  /** Deleting the base items just added gives back the original base
      list, sorted. */
  lemma {:induction false} DeleteBaseUndoesAddBase(data: seq<string>, sc: SystemConfig)
    requires AddBase(data, sc).Ok?
    ensures DeleteBase(data, SystemConfig(AddBase(data, sc).value, sc.advancedDirectives)) == Ok(Sort(sc.baseDirectives))
  {
    var l := AddBase(data, sc).value;
    assert multiset(l) == multiset(sc.baseDirectives) + multiset(data);
    var r := DeleteBase(data, SystemConfig(l, sc.advancedDirectives));
    assert r.Ok?;
    assert multiset(r.value) == multiset(sc.baseDirectives);
    SortedUnique(r.value, Sort(sc.baseDirectives));
  }

  /** An advanced addition without the divider among its items is normal. */
  lemma AddAdvancedIsNormal(data: seq<string>, sc: SystemConfig)
    requires AddAdvanced(data, sc).Ok? && DIVIDER !in data
    ensures Normalise(AdvancedField, AddAdvanced(data, sc).value) == AddAdvanced(data, sc).value
  {
    var A := AdvancedPart(sc.advancedDirectives);
    SortMembers(A + data);
    NormalShape(Sort(A + data), Experimental(sc));
  }

  /** An advanced deletion is normal. */
  lemma DeleteAdvancedIsNormal(data: seq<string>, sc: SystemConfig, users: string -> nat)
    requires DeleteAdvanced(data, sc, users).Ok?
    ensures Normalise(AdvancedField, DeleteAdvanced(data, sc, users).value) == DeleteAdvanced(data, sc, users).value
  {
    var v := DeleteAdvanced(data, sc, users).value;
    var k := |v| - 1 - |Experimental(sc)|;
    assert multiset(AdvancedPart(sc.advancedDirectives))[DIVIDER] == 0;
    assert multiset(v[..k])[DIVIDER] == 0;
    assert v == v[..k] + [DIVIDER] + Experimental(sc);
    NormalShape(v[..k], Experimental(sc));
  }

  /** An experimental addition is normal. */
  lemma AddExperimentalIsNormal(data: seq<string>, sc: SystemConfig)
    requires AddExperimental(data, sc).Ok?
    ensures Normalise(AdvancedField, AddExperimental(data, sc).value) == AddExperimental(data, sc).value
  {
    SortMembers(AdvancedPart(sc.advancedDirectives));
    NormalShape(Advanced(sc), Sort(ExperimentalPart(sc.advancedDirectives) + data));
  }

  /** An experimental deletion is normal. */
  lemma DeleteExperimentalIsNormal(data: seq<string>, sc: SystemConfig, users: string -> nat)
    requires DeleteExperimental(data, sc, users).Ok?
    ensures Normalise(AdvancedField, DeleteExperimental(data, sc, users).value) == DeleteExperimental(data, sc, users).value
  {
    var v := DeleteExperimental(data, sc, users).value;
    var k := |Advanced(sc)| + 1;
    assert v == Advanced(sc) + [DIVIDER] + v[k..];
    SortMembers(AdvancedPart(sc.advancedDirectives));
    NormalShape(Advanced(sc), v[k..]);
  }

  /** Every patch is already in the shape the verification step normalises
      the re-fetched field to, so a server that stores it exactly passes the
      check; the one exception is an advanced addition that lists the
      divider itself. */
  lemma {:induction false} PatchIsNormal(action: string, data: seq<string>, sc: SystemConfig, users: string -> nat)
    requires Patch(action, data, sc, users).Ok?
    requires action == "addAdvancedDirectives" ==> DIVIDER !in data
    ensures Normalise(TargetField(action), Patch(action, data, sc, users).value) == Patch(action, data, sc, users).value
  {
    if action == "addBaseDirectives" || action == "deleteBaseDirectives" {
      ActionFields();
      SortOfSorted(Patch(action, data, sc, users).value);
    } else if action == "addAdvancedDirectives" {
      ActionFields();
      AddAdvancedIsNormal(data, sc);
    } else if action == "deleteAdvancedDirectives" {
      ActionFields();
      DeleteAdvancedIsNormal(data, sc, users);
    } else if action == "addExperimentalDirectives" {
      ActionFields();
      AddExperimentalIsNormal(data, sc);
    } else {
      ActionFields();
      DeleteExperimentalIsNormal(data, sc, users);
    }
  }

  /** Verifying a sorted base list accepts exactly the re-fetched lists with
      the same entries in any order. */
  lemma NormaliseBaseIffPermutation(p: seq<string>, f: seq<string>)
    requires Sorted(p)
    ensures Normalise(BaseField, f) == p <==> multiset(f) == multiset(p)
  {
    if multiset(f) == multiset(p) {
      SortedUnique(Sort(f), p);
    }
  }

  /** Verifying an advanced list whose sections are sorted accepts exactly the
      re-fetched lists whose two sections hold the same entries, each in any
      order. */
  lemma {:induction false} NormaliseAdvancedIffSectionPermutation(a: seq<string>, e: seq<string>, f: seq<string>)
    requires Sorted(a) && Sorted(e) && DIVIDER !in a
    ensures Normalise(AdvancedField, f) == a + [DIVIDER] + e <==>
      multiset(AdvancedPart(f)) == multiset(a) && multiset(ExperimentalPart(f)) == multiset(e)
  {
    var n := Normalise(AdvancedField, f);
    if n == a + [DIVIDER] + e {
      Rejoin(a, e);
    }
    if multiset(AdvancedPart(f)) == multiset(a) && multiset(ExperimentalPart(f)) == multiset(e) {
      SortedUnique(Sort(AdvancedPart(f)), a);
      SortedUnique(Sort(ExperimentalPart(f)), e);
      PartsRejoin(n);
    }
  }

  /** What the final check of a run confirms: for the base list, that the
      server holds the patch's entries in some order; for the advanced list,
      that each of its two sections does. */
  lemma {:induction false} VerifiedMeans(action: string, arg: string, sc: SystemConfig, users: string -> nat, answer: string, fetched: SystemConfig)
    requires Run(action, arg, sc, users, answer, fetched).Applied?
    requires action == "addAdvancedDirectives" ==> DIVIDER !in Split(arg, ',')
    ensures var r := Run(action, arg, sc, users, answer, fetched);
      r.verified <==>
        if TargetField(action) == BaseField then multiset(fetched.baseDirectives) == multiset(r.patch)
        else
          && multiset(AdvancedPart(fetched.advancedDirectives)) == multiset(AdvancedPart(r.patch))
          && multiset(ExperimentalPart(fetched.advancedDirectives)) == multiset(ExperimentalPart(r.patch))
  {
    var r := Run(action, arg, sc, users, answer, fetched);
    var p := r.patch;
    PatchIsNormal(action, Split(arg, ','), sc, users);
    if TargetField(action) == BaseField {
      NormaliseBaseIffPermutation(p, fetched.baseDirectives);
    } else {
      var a := Sort(AdvancedPart(p));
      var e := Sort(ExperimentalPart(p));
      SortMembers(AdvancedPart(p));
      NormaliseAdvancedIffSectionPermutation(a, e, fetched.advancedDirectives);
    }
  }
}
