/** `reqTimeRange` in cdnpro-helper.js: the report window a range
    specification asks for, in integer milliseconds since the epoch, with the
    current time passed in. */
module TimeRange {
  import opened Wrappers
  import opened Strings
  import opened JsValues

  /** The fields of the specification the helper reads. */
  datatype RangeSpec = RangeSpec(start: Value, end: Value, span: Value, center: Value)

  /** A report window. */
  datatype Window = Window(start: int, end: int)

  /** Milliseconds per unit, by the letter that ends the span. */
  function UnitMillis(u: char): Option<int> {
    if u == 'd' then Some(86400000)
    else if u == 'h' then Some(3600000)
    else if u == 'm' then Some(60000)
    else if u == 's' then Some(1000)
    else None
  }

  /** The span in milliseconds: `parseInt(span)` times the unit its last
      character names. A span that is not a string has no `slice`, so a
      numeric one throws there. */
  function SpanMillis(span: Value): (r: Result<int>)
    ensures Nullish(span) ==> r == Err("span is not defined")
    ensures r.Ok? ==> (
      && span.Str? && |span.s| > 0 && UnitMillis(span.s[|span.s| - 1]).Some? && ParseIntPrefix(span.s).Some?
      && r.value == ParseIntPrefix(span.s).value * UnitMillis(span.s[|span.s| - 1]).value)
  {
    if Nullish(span) then Err("span is not defined")
    else
      var v := ParseIntPrefix(ToString(span));
      if v.None? then Err("span value is not a number")
      else if span.List? then Err("span unit is not recognized")
      else if !span.Str? then Err("span.slice is not a function")
      else if |span.s| == 0 then Err("span unit is not recognized")
      else
        var f := UnitMillis(span.s[|span.s| - 1]);
        if f.None? then Err("span unit is not recognized")
        else Ok(v.value * f.value)
  }

  /** Every span is a whole number of seconds. */
  lemma SpanWholeSeconds(span: Value)
    requires SpanMillis(span).Ok?
    ensures SpanMillis(span).value % 1000 == 0
  {
    WholeSeconds(ParseIntPrefix(span.s).value, UnitMillis(span.s[|span.s| - 1]).value / 1000);
  }

  lemma WholeSeconds(v: int, k: int)
    ensures (v * (k * 1000)) % 1000 == 0
  {
    assert v * (k * 1000) == (v * k) * 1000;
  }

  /** A span written as a count and a unit letter reads back as the count
      times the unit. */
  lemma SpanOfCount(n: nat, u: char)
    requires UnitMillis(u).Some?
    ensures SpanMillis(Str(NatToString(n) + [u])) == Ok(n * UnitMillis(u).value)
  {
    var s := NatToString(n) + [u];
    ParseIntOfNat(n, [u]);
    assert ToString(Str(s)) == s && s[|s| - 1] == u;
  }

  /** Any other last letter is refused. */
  lemma UnknownUnitRefused(n: nat, u: char)
    requires UnitMillis(u).None? && !IsDigit(u)
    ensures SpanMillis(Str(NatToString(n) + [u])) == Err("span unit is not recognized")
  {
    var s := NatToString(n) + [u];
    ParseIntOfNat(n, [u]);
    assert ToString(Str(s)) == s && s[|s| - 1] == u;
  }

  /** `new Date(v).getTime()` for a date-valued field is the parameter
      `date`; 'now' as the end is the current time. */
  function EndDate(spec: RangeSpec, now: int, date: Value -> int): Option<int> {
    if !Truthy(spec.end) then None
    else if spec.end == Str("now") then Some(now)
    else Some(date(spec.end))
  }

  function StartDate(spec: RangeSpec, date: Value -> int): Option<int> {
    if Truthy(spec.start) then Some(date(spec.start)) else None
  }

  /** The window before the end is held to the current time: both ends when
      both are given (the span is then not read at all), else one end or the
      centre and the span. */
  function Unclamped(spec: RangeSpec, now: int, date: Value -> int): Result<Window> {
    var s := StartDate(spec, date);
    var e := EndDate(spec, now, date);
    if s.Some? && e.Some? then Ok(Window(s.value, e.value))
    else match SpanMillis(spec.span)
      case Err(m) => Err(m)
      case Ok(ms) =>
        if s.Some? then Ok(Window(s.value, s.value + ms))
        else if e.Some? then Ok(Window(e.value - ms, e.value))
        else if Truthy(spec.center) then
          var c := date(spec.center);
          Ok(Window(c - ms / 2, c + ms / 2))
        else Err("missing start, end, or center")
  }

  /** `reqTimeRange` up to the formatting of the two dates. */
  function ReqTimeRange(spec: RangeSpec, now: int, date: Value -> int): (r: Result<Window>)
    ensures r.Ok? ==> r.value.start < r.value.end <= now
    ensures Unclamped(spec, now, date).Err? ==> r == Unclamped(spec, now, date)
    ensures Unclamped(spec, now, date).Ok? ==>
      var w := Unclamped(spec, now, date).value;
      r.Ok? <==> w.start < w.end && w.start < now
  {
    match Unclamped(spec, now, date)
    case Err(m) => Err(m)
    case Ok(w) =>
      var end := if w.end > now then now else w.end;
      if end <= w.start then Err("end date is not after start date")
      else Ok(Window(w.start, end))
  }

  /** With both ends given, the window is those ends with the end held to
      the current time, whatever the span says. */
  lemma BothEndsIgnoreSpan(spec: RangeSpec, now: int, date: Value -> int, span: Value)
    requires Truthy(spec.start) && Truthy(spec.end)
    ensures ReqTimeRange(spec, now, date) == ReqTimeRange(spec.(span := span), now, date)
  {
  }

  /** From a start, the window runs one span forward, cut at the current
      time. */
  lemma FromStart(spec: RangeSpec, now: int, date: Value -> int)
    requires Truthy(spec.start) && !Truthy(spec.end) && SpanMillis(spec.span).Ok?
    ensures var s := date(spec.start);
      var e := s + SpanMillis(spec.span).value;
      var end := if e > now then now else e;
      ReqTimeRange(spec, now, date) == if end <= s then Err("end date is not after start date") else Ok(Window(s, end))
  {
  }

  /** From an end, the start is one span before the end as given, so an end
      in the future yields a window shorter than the span. */
  lemma FromEnd(spec: RangeSpec, now: int, date: Value -> int)
    requires !Truthy(spec.start) && Truthy(spec.end) && SpanMillis(spec.span).Ok?
    requires EndDate(spec, now, date).value - SpanMillis(spec.span).value < now
    ensures var e := EndDate(spec, now, date).value;
      var ms := SpanMillis(spec.span).value;
      ms > 0 ==> ReqTimeRange(spec, now, date) == Ok(Window(e - ms, if e > now then now else e))
  {
  }

  /** Around a centre that is at least half a span in the past, the window
      is symmetric about it. */
  lemma {:induction false} Centred(spec: RangeSpec, now: int, date: Value -> int)
    requires !Truthy(spec.start) && !Truthy(spec.end) && Truthy(spec.center)
    requires SpanMillis(spec.span).Ok? && SpanMillis(spec.span).value > 0
    requires date(spec.center) + SpanMillis(spec.span).value / 2 <= now
    ensures ReqTimeRange(spec, now, date).Ok?
    ensures var w := ReqTimeRange(spec, now, date).value;
      w.end - date(spec.center) == date(spec.center) - w.start &&
      w.end - w.start == SpanMillis(spec.span).value
  {
    var ms := SpanMillis(spec.span).value;
    var c := date(spec.center);
    EvenSpan(spec.span);
    assert Unclamped(spec, now, date) == Ok(Window(c - ms / 2, c + ms / 2));
  }

  /** A span is an even number of milliseconds, so halving it loses
      nothing. */
  lemma EvenSpan(span: Value)
    requires SpanMillis(span).Ok?
    ensures SpanMillis(span).value / 2 * 2 == SpanMillis(span).value
  {
    var ms := SpanMillis(span).value;
    SpanWholeSeconds(span);
    assert ms == (ms / 1000) * 1000;
    assert ms == (ms / 1000 * 500) * 2;
  }

  /** A window needs a span unless both ends are given. */
  lemma SpanRequired(spec: RangeSpec, now: int, date: Value -> int)
    requires !(Truthy(spec.start) && Truthy(spec.end)) && Nullish(spec.span)
    ensures ReqTimeRange(spec, now, date) == Err("span is not defined")
  {
  }
}
