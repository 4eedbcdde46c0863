/** The list edits shared by updateSystemConfigs.js and updateServiceQuotas.js:
    each item of the command-line list is checked and applied in order, and
    the first failing check ends the process with its message. */
module Directives {
  import opened Wrappers
  import opened Strings

  /** A membership check on a candidate item: with `required` false the item
      must not be in `names`, with `required` true it must be. */
  datatype Guard = Guard(names: seq<string>, required: bool, message: string)

  predicate Allows(g: Guard, d: string) {
    (d in g.names) == g.required
  }

  /** The first guard that refuses `d`. */
  function FirstRefusal(gs: seq<Guard>, d: string): (r: Option<Guard>)
    ensures r.None? <==> forall j | 0 <= j < |gs| :: Allows(gs[j], d)
    ensures r.Some? ==> r.value in gs && !Allows(r.value, d)
  {
    if |gs| == 0 then None
    else if !Allows(gs[0], d) then Some(gs[0])
    else
      var r := FirstRefusal(gs[1..], d);
      assert forall j | 1 <= j < |gs| :: gs[j] == gs[1..][j - 1];
      r
  }

  /** Items that can all be appended: none already in the growing list (so no
      item repeats and none is in `list`), and every guard allows each. */
  predicate Addable(list: seq<string>, items: seq<string>, gs: seq<Guard>) {
    forall i | 0 <= i < |items| ::
      && items[i] !in list
      && items[i] !in items[..i]
      && forall j | 0 <= j < |gs| :: Allows(gs[j], items[i])
  }

  /** The add loop: an item already in the growing list is refused with
      "is already in <own>", then each guard is consulted in order. */
  function AddEach(list: seq<string>, items: seq<string>, own: string, gs: seq<Guard>): (r: Result<seq<string>>)
    ensures r.Ok? <==> Addable(list, items, gs)
    ensures r.Ok? ==> r.value == list + items
    decreases |items|
  {
    if |items| == 0 then Ok(list)
    else
      var d := items[0];
      if d in list then Err("'" + d + "' is already in " + own)
      else match FirstRefusal(gs, d)
        case Some(g) => Err("'" + d + "' " + g.message)
        case None =>
          var r := AddEach(list + [d], items[1..], own, gs);
          AddEachStep(list, items, gs);
          r
  }

  /** Appending the first item turns the condition on the rest into the
      condition on the whole. */
  lemma AddEachStep(list: seq<string>, items: seq<string>, gs: seq<Guard>)
    requires |items| > 0
    ensures Addable(list, items, gs) <==>
      items[0] !in list && (forall j | 0 <= j < |gs| :: Allows(gs[j], items[0])) &&
      Addable(list + [items[0]], items[1..], gs)
  {
    var rest := items[1..];
    assert forall i | 1 <= i < |items| :: items[i] == rest[i - 1] && items[..i] == [items[0]] + rest[..i - 1];
    if Addable(list, items, gs) {
      forall i | 0 <= i < |rest|
        ensures rest[i] !in list + [items[0]] && rest[i] !in rest[..i]
      {
        assert items[i + 1] !in items[..i + 1];
        assert items[..i + 1] == [items[0]] + rest[..i];
      }
    }
    if items[0] !in list && (forall j | 0 <= j < |gs| :: Allows(gs[j], items[0])) && Addable(list + [items[0]], rest, gs) {
      forall i | 1 <= i < |items|
        ensures items[i] !in list && items[i] !in items[..i]
      {
        assert rest[i - 1] !in list + [items[0]];
      }
    }
  }

  /** Position of the first occurrence of `d`, or -1 (`Array.indexOf`). */
  function Find(list: seq<string>, d: string): (r: int)
    ensures -1 <= r < |list|
    ensures r == -1 <==> d !in list
    ensures r >= 0 ==> list[r] == d && d !in list[..r]
  {
    if |list| == 0 then -1
    else if list[0] == d then 0
    else
      var r := Find(list[1..], d);
      assert r >= 0 ==> list[..r + 1] == [list[0]] + list[1..][..r];
      if r == -1 then -1 else r + 1
  }

  /** `splice(index, 1)` at the first occurrence. */
  function RemoveFirst(list: seq<string>, d: string): (r: seq<string>)
    requires d in list
    ensures multiset(r) == multiset(list) - multiset{d}
    ensures |r| == |list| - 1
  {
    var k := Find(list, d);
    assert list == list[..k] + [d] + list[k + 1..];
    list[..k] + list[k + 1..]
  }

  /** Items that can all be deleted one occurrence each: the list holds them
      with their multiplicities, and no service quota allows any of them. */
  predicate Deletable(list: seq<string>, items: seq<string>, users: string -> nat) {
    multiset(items) <= multiset(list) && forall i | 0 <= i < |items| :: users(items[i]) == 0
  }

  /** The delete loop of updateSystemConfigs.js: an absent item is refused with
      "is not in <own>", an item some service quota still allows (`users`
      counts them) is refused, and otherwise one occurrence is removed. */
  function DeleteEach(list: seq<string>, items: seq<string>, own: string, users: string -> nat): (r: Result<seq<string>>)
    ensures r.Ok? <==> Deletable(list, items, users)
    ensures r.Ok? ==> multiset(r.value) == multiset(list) - multiset(items)
    decreases |items|
  {
    if |items| == 0 then Ok(list)
    else
      var d := items[0];
      DeleteEachStep(list, items, users);
      if d !in list then Err(NotInMessage(d, own))
      else if users(d) > 0 then Err(InUseMessage(d, users(d)))
      else DeleteEach(RemoveFirst(list, d), items[1..], own, users)
  }

  function NotInMessage(d: string, own: string): string {
    "'" + d + "' is not in " + own
  }

  function InUseMessage(d: string, n: nat): string {
    "'" + d + "' is in " + NatToString(n) + " serviceQuotas."
  }

  /** Removing the first item from both sides keeps multiset inclusion and
      difference. */
  lemma DeleteEachStep(list: seq<string>, items: seq<string>, users: string -> nat)
    requires |items| > 0
    ensures items[0] !in list ==> !Deletable(list, items, users)
    ensures users(items[0]) > 0 ==> !Deletable(list, items, users)
    ensures items[0] in list ==>
      && (Deletable(list, items, users) <==>
            users(items[0]) == 0 && Deletable(RemoveFirst(list, items[0]), items[1..], users))
      && multiset(list) - multiset(items) == multiset(RemoveFirst(list, items[0])) - multiset(items[1..])
  {
    assert items == [items[0]] + items[1..];
    assert multiset(items)[items[0]] > 0;
    assert forall i | 1 <= i < |items| :: items[i] == items[1..][i - 1];
  }

  /** `list.filter(x => x !== d)`. */
  function RemoveAll(list: seq<string>, d: string): (r: seq<string>)
    ensures d !in r
    ensures forall x | x != d :: multiset(r)[x] == multiset(list)[x]
  {
    if |list| == 0 then []
    else
      assert list == [list[0]] + list[1..];
      (if list[0] == d then [] else [list[0]]) + RemoveAll(list[1..], d)
  }

  /** Items that can all be deleted by `DeleteEvery`: each is in the list and
      none repeats. */
  predicate Removable(list: seq<string>, items: seq<string>) {
    forall i | 0 <= i < |items| :: items[i] in list && items[i] !in items[..i]
  }

  /** The delete loop of updateServiceQuotas.js: an absent item is refused
      with "is NOT in <own>"; otherwise every occurrence is removed, so a
      repeated item is refused the second time. */
  function DeleteEvery(list: seq<string>, items: seq<string>, own: string): (r: Result<seq<string>>)
    ensures r.Ok? <==> Removable(list, items)
    ensures r.Ok? ==> forall x :: multiset(r.value)[x] == if x in items then 0 else multiset(list)[x]
    decreases |items|
  {
    if |items| == 0 then Ok(list)
    else
      var d := items[0];
      if d !in list then Err("'" + d + "' is NOT in " + own)
      else
        var r := DeleteEvery(RemoveAll(list, d), items[1..], own);
        DeleteEveryStep(list, items);
        r
  }

  /** Removing every occurrence of the first item turns the condition on the
      rest into the condition on the whole. */
  lemma DeleteEveryStep(list: seq<string>, items: seq<string>)
    requires |items| > 0 && items[0] in list
    ensures Removable(list, items) <==> Removable(RemoveAll(list, items[0]), items[1..])
    ensures Removable(list, items) ==> items[0] !in items[1..]
    ensures forall x :: x in items <==> x == items[0] || x in items[1..]
  {
    var d, rest := items[0], items[1..];
    var l := RemoveAll(list, d);
    RemoveAllMembers(list, d);
    if Removable(list, items) {
      forall j | 0 <= j < |rest| ensures rest[j] in l && rest[j] !in rest[..j] && rest[j] != d {
        assert items[j + 1] == rest[j] && items[..j + 1] == [d] + rest[..j];
      }
    }
    if Removable(l, rest) {
      forall i | 0 <= i < |items| ensures items[i] in list && items[i] !in items[..i] {
        if i > 0 {
          assert items[i] == rest[i - 1] && items[..i] == [d] + rest[..i - 1];
        }
      }
    }
    assert items == [d] + rest;
  }

  /** The items left by `RemoveAll` are those of the list other than `d`. */
  lemma RemoveAllMembers(list: seq<string>, d: string)
    ensures forall x :: x in RemoveAll(list, d) <==> x in list && x != d
  {
    forall x ensures x in RemoveAll(list, d) <==> x in list && x != d {
      if x != d {
        assert multiset(RemoveAll(list, d))[x] == multiset(list)[x];
      }
    }
  }

  /** `Addable` with a single guard, spelled out. */
  lemma AddableOneGuard(list: seq<string>, items: seq<string>, g: Guard)
    ensures Addable(list, items, [g]) <==>
      forall i | 0 <= i < |items| :: items[i] !in list && items[i] !in items[..i] && Allows(g, items[i])
  {
    assert forall d :: (forall j | 0 <= j < |[g]| :: Allows([g][j], d)) <==> Allows(g, d) by {
      forall d ensures (forall j | 0 <= j < |[g]| :: Allows([g][j], d)) <==> Allows(g, d) {
        assert [g][0] == g;
      }
    }
  }

  /** `Addable` with two guards, spelled out. */
  lemma AddableTwoGuards(list: seq<string>, items: seq<string>, g: Guard, h: Guard)
    ensures Addable(list, items, [g, h]) <==>
      forall i | 0 <= i < |items| :: items[i] !in list && items[i] !in items[..i] && Allows(g, items[i]) && Allows(h, items[i])
  {
    assert forall d :: (forall j | 0 <= j < |[g, h]| :: Allows([g, h][j], d)) <==> Allows(g, d) && Allows(h, d) by {
      forall d ensures (forall j | 0 <= j < |[g, h]| :: Allows([g, h][j], d)) <==> Allows(g, d) && Allows(h, d) {
        assert [g, h][0] == g && [g, h][1] == h;
      }
    }
  }

  /** The operator's reply to a yes/no prompt, compared after
      `toLowerCase()` with 'y'. */
  predicate Confirmed(answer: string) {
    answer == "y" || answer == "Y"
  }
}
