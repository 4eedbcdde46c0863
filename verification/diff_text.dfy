/** `getDiffTxt` in cdnpro-helper.js: the coloured text shown for a list of
    diff parts (each a run of lines that was added, removed or kept), with
    long runs of kept lines and over-long lines elided. The diff itself comes
    from a library and is an input here. */
module DiffText {
  import opened Strings

  /** One part of a line diff. */
  datatype Part = Part(value: string, added: bool, removed: bool)

  const ESC: char := '\U{1B}'

  /** The text wrapped in an ANSI colour escape and a reset. */
  function Color(text: string, code: string): string {
    [ESC] + "[" + code + "m" + text + [ESC] + "[0m"
  }

  /** The marker that stands for `n` elided characters. */
  function CharsSkipped(n: int): string {
    Color("..." + IntToString(n) + " chars skipped...", "36")
  }

  /** A line of more than 102 characters keeps its first and last 40, with a
      marker naming how many are left out between them. */
  function Shorten(s: string): (r: string)
    ensures |s| <= 102 ==> r == s
    ensures |s| > 102 ==> (
      && |r| >= 80 && StartsWith(r, s[..40])
      && r[|r| - 40..] == s[|s| - 40..]
      && r[40..|r| - 40] == CharsSkipped(|s| - 40 - 40))
  {
    if |s| > 102 then
      var r := s[..40] + CharsSkipped(|s| - 80) + s[|s| - 40..];
      assert r[..40] == s[..40];
      assert r[|r| - 40..] == s[|s| - 40..];
      assert r[40..|r| - 40] == CharsSkipped(|s| - 80);
      r
    else s
  }

  /** The marker is longer than the characters it replaces for lines just
      over the limit, so shortening a 103-character line lengthens it. */
  lemma ShortenCanLengthen(s: string)
    requires |s| == 103
    ensures |Shorten(s)| > |s|
  {
    assert IntToString(23) == "23";
  }

  /** `…n lines skipped…` and a newline, coloured. */
  function SkipLines(n: int): string {
    Color("..." + IntToString(n) + " lines skipped...\n", "36")
  }

  /** Where a part of kept lines sits in the diff. */
  datatype Position = Leading | Middle | Trailing

  /** How a run of kept lines is cut: the lines shown before the marker, how
      many the marker stands for, and the lines shown after it. */
  datatype Cut = Cut(head: seq<string>, skipped: nat, tail: seq<string>)

  /** More lines than this are elided: four at either end of the diff, seven
      in the middle. */
  function Threshold(pos: Position): nat {
    if pos == Middle then 7 else 4
  }

  /** The first part keeps its last three lines, the final part its first
      three, a middle part three at each end. */
  function CutContext(lines: seq<string>, pos: Position): (c: Cut)
    ensures |c.head| + c.skipped + |c.tail| == |lines|
    ensures c.head == lines[..|c.head|] && c.tail == lines[|lines| - |c.tail|..]
    ensures c.skipped > 0 <==> |lines| > Threshold(pos)
    ensures c.skipped > 0 ==> c.skipped >= 2
    ensures c.skipped > 0 ==> |c.head| == (if pos == Leading then 0 else 3) && |c.tail| == (if pos == Trailing then 0 else 3)
  {
    var n := |lines|;
    if n <= Threshold(pos) then Cut(lines, 0, [])
    else if pos == Leading then Cut([], n - 3, lines[n - 3..])
    else if pos == Trailing then Cut(lines[..3], n - 3, [])
    else Cut(lines[..3], n - 6, lines[n - 3..])
  }

  /** The lines, each shortened, one per line. */
  function Shown(lines: seq<string>): string {
    Join(seq(|lines|, i requires 0 <= i < |lines| => Shorten(lines[i])), "\n") + "\n"
  }

  function RenderCut(c: Cut): string {
    if c.skipped == 0 then Shown(c.head)
    else
      (if |c.head| > 0 then Shown(c.head) else "") +
      SkipLines(c.skipped) +
      (if |c.tail| > 0 then Shown(c.tail) else "")
  }

  /** The lines of the part at index `ind` of `n`: every part but the last
      ends in a newline, so its final, empty, piece is dropped. */
  function PartLines(p: Part, ind: nat, n: nat): seq<string> {
    var lines := Split(p.value, '\n');
    if ind != n - 1 then lines[..|lines| - 1] else lines
  }

  function PositionOf(ind: nat, n: nat): Position {
    if ind == 0 then Leading else if ind == n - 1 then Trailing else Middle
  }

  /** The text for one part. */
  function PartText(p: Part, ind: nat, n: nat): string {
    var lines := PartLines(p, ind, n);
    if p.added then Color("+" + Join(lines, "\n+") + "\n", "32")
    else if p.removed then Color("-" + Join(lines, "\n-") + "\n", "31")
    else RenderCut(CutContext(lines, PositionOf(ind, n)))
  }

  /** The text for the parts from index `ind` on. */
  function PartsText(diff: seq<Part>, ind: nat): string
    requires ind <= |diff|
    decreases |diff| - ind
  {
    if ind == |diff| then "" else PartText(diff[ind], ind, |diff|) + PartsText(diff, ind + 1)
  }

  /** Nothing changed: a single part that is neither added nor removed. */
  predicate Unchanged(diff: seq<Part>) {
    |diff| == 1 && !diff[0].added && !diff[0].removed
  }

  /** `getDiffTxt(diff)`. */
  function GetDiffTxt(diff: seq<Part>): (r: string)
    ensures Unchanged(diff) || |diff| == 0 ==> r == ""
    ensures !Unchanged(diff) && |diff| > 0 ==> r != ""
  {
    if Unchanged(diff) then "" else PartsText(diff, 0)
  }

  /** The lines, each with the marker in front. */
  function Marked(lines: seq<string>, m: char): seq<string> {
    seq(|lines|, i requires 0 <= i < |lines| => [m] + lines[i])
  }

  /** Writing the marker in front of the whole text and after every newline
      marks each line: an added or removed part shows every one of its lines
      behind '+' or '-'. */
  lemma {:induction false} MarkEveryLine(lines: seq<string>, m: char)
    requires |lines| >= 1
    ensures [m] + Join(lines, "\n" + [m]) == Join(Marked(lines, m), "\n")
    decreases |lines|
  {
    if |lines| > 1 {
      MarkEveryLine(lines[1..], m);
      assert Marked(lines[1..], m) == Marked(lines, m)[1..];
    }
  }
}
