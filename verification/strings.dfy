/** String helpers with the meaning of the JavaScript built-ins the scripts use
    (`startsWith`, `includes`, `indexOf`, `substr`, `split`, `join`, `parseInt`). */
module Strings {
  import opened Wrappers

  /** `s.startsWith(p)` */
  predicate StartsWith(s: string, p: string) {
    |p| <= |s| && s[..|p|] == p
  }

  /** `p` occurs in `s` at position `i`. */
  predicate OccursAt(s: string, p: string, i: int) {
    0 <= i && i + |p| <= |s| && s[i..i + |p|] == p
  }

  /** `s.includes(p)` */
  predicate Contains(s: string, p: string) {
    exists i | 0 <= i <= |s| :: OccursAt(s, p, i)
  }

  /** The first position at or after `k` where `p` occurs, or -1. */
  function IndexFrom(s: string, p: string, k: nat): (r: int)
    requires k <= |s|
    ensures r == -1 || (k <= r && OccursAt(s, p, r))
    ensures forall j | k <= j < (if r == -1 then |s| + 1 else r) :: !OccursAt(s, p, j)
    decreases |s| - k
  {
    if OccursAt(s, p, k) then k
    else if k == |s| then -1
    else IndexFrom(s, p, k + 1)
  }

  /** `s.indexOf(p)`: the first occurrence of `p` in `s`, or -1 when there is none. */
  function IndexOf(s: string, p: string): (r: int)
    ensures r == -1 <==> !Contains(s, p)
    ensures r != -1 ==> OccursAt(s, p, r) && forall j | 0 <= j < r :: !OccursAt(s, p, j)
  {
    var r := IndexFrom(s, p, 0);
    assert r != -1 ==> Contains(s, p) by {
      if r != -1 { assert OccursAt(s, p, r) && r <= |s|; }
    }
    r
  }

  /** `sep` joins `xs`: `xs.join(sep)`. */
  function Join(xs: seq<string>, sep: string): string {
    if |xs| == 0 then ""
    else if |xs| == 1 then xs[0]
    else xs[0] + sep + Join(xs[1..], sep)
  }

  /** A last piece that holds the separator joins like two pieces. */
  lemma {:induction false} JoinLastSplits(xs: seq<string>, y: string, z: string, sep: string)
    ensures Join(xs + [y + sep + z], sep) == Join(xs + [y, z], sep)
    decreases |xs|
  {
    if |xs| > 0 {
      assert (xs + [y + sep + z])[1..] == xs[1..] + [y + sep + z];
      assert (xs + [y, z])[1..] == xs[1..] + [y, z];
      JoinLastSplits(xs[1..], y, z, sep);
    } else {
      assert [y, z][1..] == [z];
    }
  }

  /** Splitting undoes joining pieces whose last one holds one separator. */
  lemma SplitJoinLast(xs: seq<string>, a: string, b: string, c: char)
    requires forall i | 0 <= i < |xs| :: c !in xs[i]
    requires c !in a && c !in b
    ensures Split(Join(xs + [a + [c] + b], [c]), c) == xs + [a, b]
  {
    JoinLastSplits(xs, a, b, [c]);
    var ys := xs + [a, b];
    forall i | 0 <= i < |ys| ensures c !in ys[i] {
      if i < |xs| { assert ys[i] == xs[i]; }
    }
    SplitJoin(ys, c);
  }

  /** `s.split(c)` for a one-character separator. */
  function Split(s: string, c: char): (r: seq<string>)
    ensures |r| >= 1
    ensures forall i | 0 <= i < |r| :: c !in r[i]
    ensures Join(r, [c]) == s
    decreases |s|
  {
    if |s| == 0 then [""]
    else
      var rest := Split(s[1..], c);
      if s[0] == c then
        [""] + rest
      else
        [[s[0]] + rest[0]] + rest[1..]
  }

  /** A string without the separator splits into itself alone. */
  lemma {:induction false} SplitNoSeparator(a: string, c: char)
    requires c !in a
    ensures Split(a, c) == [a]
    decreases |a|
  {
    if |a| > 0 {
      SplitNoSeparator(a[1..], c);
      assert [a[0]] + a[1..] == a;
    }
  }

  /** Splitting at the first separator peels off the text before it. */
  lemma {:induction false} SplitAtFirst(a: string, b: string, c: char)
    requires c !in a
    ensures Split(a + [c] + b, c) == [a] + Split(b, c)
    decreases |a|
  {
    var s := a + [c] + b;
    if |a| == 0 {
      assert s[1..] == b;
    } else {
      assert s[1..] == a[1..] + [c] + b;
      SplitAtFirst(a[1..], b, c);
      assert [a[0]] + a[1..] == a;
    }
  }

  /** Splitting undoes joining when no piece holds the separator. */
  lemma {:induction false} SplitJoin(xs: seq<string>, c: char)
    requires |xs| >= 1
    requires forall i | 0 <= i < |xs| :: c !in xs[i]
    ensures Split(Join(xs, [c]), c) == xs
    decreases |xs|
  {
    if |xs| == 1 {
      SplitNoSeparator(xs[0], c);
    } else {
      SplitJoin(xs[1..], c);
      SplitAtFirst(xs[0], Join(xs[1..], [c]), c);
      assert [xs[0]] + xs[1..] == xs;
    }
  }

  /** `s.replace(/^\/+/, '')`: drops every leading slash. */
  function TrimLeadingSlashes(s: string): (r: string)
    ensures |r| == 0 || r[0] != '/'
    ensures |r| <= |s| && r == s[|s| - |r|..]
    ensures forall j | 0 <= j < |s| - |r| :: s[j] == '/'
  {
    if |s| > 0 && s[0] == '/' then
      var r := TrimLeadingSlashes(s[1..]);
      assert s[1..][|s[1..]| - |r|..] == s[|s| - |r|..];
      r
    else s
  }

  predicate IsDigit(c: char) { '0' <= c <= '9' }

  predicate AllDigits(s: string) {
    forall i | 0 <= i < |s| :: IsDigit(s[i])
  }

  /** The decimal value of a digit string. */
  function DigitsValue(s: string): (n: nat)
    requires AllDigits(s)
    decreases |s|
  {
    if |s| == 0 then 0
    else DigitsValue(s[..|s| - 1]) * 10 + (s[|s| - 1] as int - '0' as int)
  }

  /** The decimal spelling of a natural number, as `String(n)` writes it. */
  function NatToString(n: nat): (s: string)
    ensures |s| >= 1 && AllDigits(s)
    ensures DigitsValue(s) == n
    ensures |s| > 1 ==> s[0] != '0'
  {
    if n < 10 then [('0' as int + n) as char]
    else
      var s := NatToString(n / 10) + [('0' as int + n % 10) as char];
      assert s[..|s| - 1] == NatToString(n / 10);
      s
  }

  /** `String(n)` for an integer. */
  function IntToString(n: int): string {
    if n < 0 then "-" + NatToString(-n) else NatToString(n)
  }

  /** The longest prefix of `s` made of digits. */
  function DigitPrefix(s: string): (r: string)
    ensures AllDigits(r) && StartsWith(s, r)
    ensures |r| == |s| || !IsDigit(s[|r|])
  {
    if |s| > 0 && IsDigit(s[0]) then [s[0]] + DigitPrefix(s[1..]) else ""
  }

  /** The digit prefix of a digit string followed by a non-digit is that
      digit string. */
  lemma {:induction false} DigitPrefixStops(ds: string, rest: string)
    requires AllDigits(ds)
    requires |rest| == 0 || !IsDigit(rest[0])
    ensures DigitPrefix(ds + rest) == ds
    decreases |ds|
  {
    if |ds| > 0 {
      assert (ds + rest)[1..] == ds[1..] + rest;
      DigitPrefixStops(ds[1..], rest);
      assert [ds[0]] + ds[1..] == ds;
    }
  }

  /** `parseInt` reads back the decimal spelling of a natural number,
      whatever non-digit text follows it. */
  lemma ParseIntOfNat(n: nat, rest: string)
    requires |rest| == 0 || !IsDigit(rest[0])
    ensures ParseIntPrefix(NatToString(n) + rest) == Some(n)
  {
    var s := NatToString(n) + rest;
    assert s[0] == NatToString(n)[0];
    assert s[0..] == s;
    DigitPrefixStops(NatToString(n), rest);
  }

  /** `parseInt(s)` on a string with no leading white space and no `0x` prefix:
      an optional sign followed by at least one digit; `None` stands for NaN. */
  function ParseIntPrefix(s: string): (r: Option<int>)
  {
    var sign := if |s| > 0 && (s[0] == '-' || s[0] == '+') then 1 else 0;
    var ds := DigitPrefix(s[sign..]);
    var v: int := if |ds| == 0 then 0 else DigitsValue(ds);
    if |ds| == 0 then None
    else if sign == 1 && s[0] == '-' then Some(-v)
    else Some(v)
  }

}
