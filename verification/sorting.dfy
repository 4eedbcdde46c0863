/** `Array.prototype.sort()` with no comparator on a list of strings: ascending
    lexicographic order on characters. */
module Sorting {

  /** `a <= b` in the order the default sort uses. */
  predicate Le(a: string, b: string)
    decreases |a|
  {
    |a| == 0 || (|b| > 0 && (a[0] < b[0] || (a[0] == b[0] && Le(a[1..], b[1..]))))
  }

  lemma {:induction false} LeTotal(a: string, b: string)
    ensures Le(a, b) || Le(b, a)
    decreases |a|
  {
    if |a| > 0 && |b| > 0 && a[0] == b[0] {
      LeTotal(a[1..], b[1..]);
    }
  }

  lemma {:induction false} LeTransitive(a: string, b: string, c: string)
    requires Le(a, b) && Le(b, c)
    ensures Le(a, c)
    decreases |a|
  {
    if |a| > 0 && a[0] == b[0] && b[0] == c[0] {
      LeTransitive(a[1..], b[1..], c[1..]);
    }
  }

  lemma {:induction false} LeAntisymmetric(a: string, b: string)
    requires Le(a, b) && Le(b, a)
    ensures a == b
    decreases |a|
  {
    if |a| > 0 {
      LeAntisymmetric(a[1..], b[1..]);
      assert a == [a[0]] + a[1..] && b == [b[0]] + b[1..];
    }
  }

  lemma {:induction false} LeReflexive(a: string)
    ensures Le(a, a)
    decreases |a|
  {
    if |a| > 0 { LeReflexive(a[1..]); }
  }

  predicate Sorted(s: seq<string>) {
    forall i, j | 0 <= i < j < |s| :: Le(s[i], s[j])
  }

  /** Inserts `x` before the first element it is not above. */
  function Insert(x: string, s: seq<string>): (r: seq<string>)
    ensures multiset(r) == multiset(s) + multiset{x}
  {
    if |s| == 0 then [x]
    else if Le(x, s[0]) then [x] + s
    else
      assert s == [s[0]] + s[1..];
      [s[0]] + Insert(x, s[1..])
  }

  /** Every element of a sorted list is above its head. */
  lemma HeadIsLeast(s: seq<string>, y: string)
    requires Sorted(s) && |s| > 0 && y in multiset(s)
    ensures Le(s[0], y)
  {
    var k :| 0 <= k < |s| && s[k] == y;
    if k == 0 { LeReflexive(y); }
  }

  lemma {:induction false} InsertSorted(x: string, s: seq<string>)
    requires Sorted(s)
    ensures Sorted(Insert(x, s))
    decreases |s|
  {
    if |s| == 0 {
    } else if Le(x, s[0]) {
      forall j | 0 <= j < |s| ensures Le(x, s[j]) {
        if j > 0 { LeTransitive(x, s[0], s[j]); }
      }
    } else {
      LeTotal(x, s[0]);
      assert Sorted(s[1..]);
      InsertSorted(x, s[1..]);
      var t := Insert(x, s[1..]);
      assert s == [s[0]] + s[1..];
      forall k | 0 <= k < |t| ensures Le(s[0], t[k]) {
        assert t[k] in multiset(t);
        if t[k] != x {
          assert t[k] in multiset(s);
          HeadIsLeast(s, t[k]);
        }
      }
      assert Insert(x, s) == [s[0]] + t;
    }
  }

  /** The list sorted in ascending order. */
  function Sort(s: seq<string>): (r: seq<string>)
    ensures Sorted(r)
    ensures multiset(r) == multiset(s)
  {
    if |s| == 0 then []
    else
      assert s == [s[0]] + s[1..];
      InsertSorted(s[0], Sort(s[1..]));
      Insert(s[0], Sort(s[1..]))
  }

  /** Two sorted lists with the same elements are the same list. */
  lemma {:induction false} SortedUnique(a: seq<string>, b: seq<string>)
    requires Sorted(a) && Sorted(b)
    requires multiset(a) == multiset(b)
    ensures a == b
    decreases |a|
  {
    assert |b| == |multiset(b)| == |multiset(a)| == |a|;
    if |a| > 0 {
      HeadsEqual(a, b);
      TailsPermuted(a, b);
      SortedTail(a);
      SortedTail(b);
      SortedUnique(a[1..], b[1..]);
      assert a == [a[0]] + a[1..] && b == [b[0]] + b[1..];
    }
  }

  /** Equal heads leave the tails with the same elements. */
  lemma TailsPermuted(a: seq<string>, b: seq<string>)
    requires |a| > 0 && |b| > 0 && a[0] == b[0]
    requires multiset(a) == multiset(b)
    ensures multiset(a[1..]) == multiset(b[1..])
  {
    assert a == [a[0]] + a[1..] && b == [b[0]] + b[1..];
    assert multiset(a[1..]) == multiset(a) - multiset([a[0]]);
    assert multiset(b[1..]) == multiset(b) - multiset([b[0]]);
  }

  lemma SortedTail(a: seq<string>)
    requires Sorted(a) && |a| > 0
    ensures Sorted(a[1..])
  {
    assert forall i | 0 <= i < |a| - 1 :: a[1..][i] == a[i + 1];
  }

  lemma HeadsEqual(a: seq<string>, b: seq<string>)
    requires Sorted(a) && Sorted(b) && |a| > 0 && |b| > 0
    requires multiset(a) == multiset(b)
    ensures a[0] == b[0]
  {
    assert a[0] in multiset(a);
    assert b[0] in multiset(b);
    HeadIsLeast(b, a[0]);
    HeadIsLeast(a, b[0]);
    LeAntisymmetric(a[0], b[0]);
  }

  /** Sorting a list that is already sorted changes nothing. */
  lemma SortOfSorted(s: seq<string>)
    requires Sorted(s)
    ensures Sort(s) == s
  {
    SortedUnique(Sort(s), s);
  }

  /** The result of sorting depends only on the elements, not on their order. */
  lemma SortOfPermutation(s: seq<string>, t: seq<string>)
    requires multiset(s) == multiset(t)
    ensures Sort(s) == Sort(t)
  {
    SortedUnique(Sort(s), Sort(t));
  }

  /** Sorting keeps membership. */
  lemma SortMembers(s: seq<string>)
    ensures forall x :: x in Sort(s) <==> x in s
  {
    forall x ensures x in Sort(s) <==> x in s {
      assert x in Sort(s) <==> x in multiset(Sort(s));
      assert x in s <==> x in multiset(s);
    }
  }

  /** Pre-sorting part of a list does not change the sorted whole. */
  lemma SortAppend(x: seq<string>, d: seq<string>)
    ensures Sort(Sort(x) + d) == Sort(x + d)
  {
    assert multiset(Sort(x) + d) == multiset(x + d);
    SortOfPermutation(Sort(x) + d, x + d);
  }
}

