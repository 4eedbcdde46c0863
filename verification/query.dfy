/** Query-string builders: `encodeQuery`/`withQuery` in client/ApiCore.js and
    `buildQueryParams` in cdnpro-helper.js. Percent-encoding
    (`encodeURIComponent`) is the parameter `enc`. */
module Query {
  import opened Wrappers
  import opened Strings
  import opened JsValues
  import TimeRange

  /** `encodeURIComponent` escapes '&', '=' and ','; an encoder with that
      property keeps the separators of a query string unambiguous. */
  ghost predicate Escapes(enc: string -> string) {
    forall x :: '&' !in enc(x) && '=' !in enc(x) && ',' !in enc(x)
  }

  /** An array value: each element encoded, joined with ','. */
  function EncodeList(items: seq<Value>, enc: string -> string): string {
    Join(seq(|items|, i requires 0 <= i < |items| => enc(ToString(items[i]))), ",")
  }

  /** The encoded form of one value. */
  function EncodeValue(v: Value, enc: string -> string): string {
    if v.List? then EncodeList(v.items, enc) else enc(ToString(v))
  }

  /** `encodeQuery` leaves out undefined, null and '' values, but not 0 or
      false. */
  predicate Dropped(v: Value) {
    v.Undefined? || v.Null? || v == Str("")
  }

  /** The `key=value` parts of the surviving entries, in order. */
  function Parts(entries: seq<(string, Value)>, enc: string -> string): (r: seq<string>)
    ensures |r| <= |entries|
  {
    if |entries| == 0 then []
    else
      var (k, v) := entries[0];
      var rest := Parts(entries[1..], enc);
      if Dropped(v) then rest else [enc(k) + "=" + EncodeValue(v, enc)] + rest
  }

  /** The surviving entries as (encoded key, encoded value) pairs: the
      reference a query string is read back against. */
  function Pairs(entries: seq<(string, Value)>, enc: string -> string): seq<(string, string)> {
    if |entries| == 0 then []
    else
      var (k, v) := entries[0];
      var rest := Pairs(entries[1..], enc);
      if Dropped(v) then rest else [(enc(k), EncodeValue(v, enc))] + rest
  }

  /** `encodeQuery(query)`; `query` is `None` for a falsy argument. */
  function EncodeQuery(query: Option<seq<(string, Value)>>, enc: string -> string): (r: string)
    ensures r == "" <==> query.None? || |Parts(query.value, enc)| == 0
    ensures r != "" ==> r[0] == '?' && r[1..] == Join(Parts(query.value, enc), "&")
  {
    if query.None? then ""
    else
      var parts := Parts(query.value, enc);
      if |parts| == 0 then "" else "?" + Join(parts, "&")
  }

  /** `withQuery(path, query)`: the path with the query appended, after '&'
      when the path already has a query string. */
  function WithQuery(path: string, query: Option<seq<(string, Value)>>, enc: string -> string): (r: string)
    ensures StartsWith(r, path)
    ensures r == path <==> EncodeQuery(query, enc) == ""
    ensures r != path && !Contains(path, "?") ==> r == path + EncodeQuery(query, enc)
    ensures r != path && Contains(path, "?") ==> r == path + "&" + EncodeQuery(query, enc)[1..]
  {
    if query.None? || |query.value| == 0 then path
    else
      var qs := EncodeQuery(query, enc);
      if qs == "" then path
      else if IndexOf(path, "?") != -1 then path + "&" + qs[1..]
      else path + qs
  }

  /** A query string read back: its parts split at '&', each part at '='. */
  function ParseQuery(qs: string): seq<seq<string>> {
    if |qs| == 0 then []
    else
      var parts := Split(qs[1..], '&');
      seq(|parts|, i requires 0 <= i < |parts| => Split(parts[i], '='))
  }

  /** No piece of an encoded list holds an ampersand or an equals sign. */
  lemma {:induction false} EncodedListClean(items: seq<Value>, enc: string -> string)
    requires Escapes(enc)
    ensures '&' !in EncodeList(items, enc) && '=' !in EncodeList(items, enc)
  {
    var xs := seq(|items|, i requires 0 <= i < |items| => enc(ToString(items[i])));
    forall i | 0 <= i < |xs| ensures '&' !in xs[i] && '=' !in xs[i] {
      assert xs[i] == enc(ToString(items[i]));
    }
    JoinClean(xs, ",", '&');
    JoinClean(xs, ",", '=');
  }

  /** Joining pieces free of a character with a separator free of it gives
      a string free of it. */
  lemma {:induction false} JoinClean(xs: seq<string>, sep: string, c: char)
    requires c !in sep
    requires forall i | 0 <= i < |xs| :: c !in xs[i]
    ensures c !in Join(xs, sep)
    decreases |xs|
  {
    if |xs| > 1 {
      JoinClean(xs[1..], sep, c);
    }
  }

  /** Every part of the query is one encoded key, '=', and the encoded value,
      none of them holding a separator. */
  lemma {:induction false} PartsShape(entries: seq<(string, Value)>, enc: string -> string)
    requires Escapes(enc)
    ensures |Parts(entries, enc)| == |Pairs(entries, enc)|
    ensures forall i | 0 <= i < |Parts(entries, enc)| ::
      && '&' !in Parts(entries, enc)[i]
      && Split(Parts(entries, enc)[i], '=') == [Pairs(entries, enc)[i].0, Pairs(entries, enc)[i].1]
    decreases |entries|
  {
    if |entries| > 0 {
      var (k, v) := entries[0];
      PartsShape(entries[1..], enc);
      if !Dropped(v) {
        var ev := EncodeValue(v, enc);
        if v.List? { EncodedListClean(v.items, enc); }
        assert '=' !in enc(k) && '&' !in enc(k);
        SplitAtFirst(enc(k), ev, '=');
        SplitNoSeparator(ev, '=');
        assert enc(k) + "=" + ev == enc(k) + ['='] + ev;
        assert '&' !in enc(k) + "=" + ev;
      }
    }
  }

  /** Reading an encoded query string back yields every surviving entry, in
      order, as its encoded key and value. */
  lemma {:induction false} ParseEncodeQuery(entries: seq<(string, Value)>, enc: string -> string)
    requires Escapes(enc)
    ensures var ps := ParseQuery(EncodeQuery(Some(entries), enc));
      |ps| == |Pairs(entries, enc)| &&
      forall i | 0 <= i < |ps| :: ps[i] == [Pairs(entries, enc)[i].0, Pairs(entries, enc)[i].1]
  {
    var parts := Parts(entries, enc);
    PartsShape(entries, enc);
    if |parts| > 0 {
      SplitJoin(parts, '&');
      assert "&" == ['&'];
    }
  }

  /** The fields `buildQueryParams` reads from its options object `o`: the
      endpoint's parameters, then 'limit' and 'offset'. */
  function Considered(params: seq<string>): seq<string> {
    params + ["limit", "offset"]
  }

  /** `p=value` for every truthy parameter, in order. The parameter name is
      not encoded here. */
  function ParamParts(o: Value, ps: seq<string>, enc: string -> string): (r: seq<string>)
    ensures |r| <= |ps|
  {
    if |ps| == 0 then []
    else
      var v := Get(o, ps[0]);
      var rest := ParamParts(o, ps[1..], enc);
      if Truthy(v) then [ps[0] + "=" + EncodeValue(v, enc)] + rest else rest
  }

  /** Every truthy considered field contributes its part, and every part
      comes from a truthy considered field. */
  lemma {:induction false} ParamPartsMembers(o: Value, ps: seq<string>, enc: string -> string, x: string)
    ensures x in ParamParts(o, ps, enc) <==>
      exists j | 0 <= j < |ps| :: Truthy(Get(o, ps[j])) && x == ps[j] + "=" + EncodeValue(Get(o, ps[j]), enc)
    decreases |ps|
  {
    if |ps| > 0 {
      ParamPartsMembers(o, ps[1..], enc, x);
      if exists j | 0 <= j < |ps| :: Truthy(Get(o, ps[j])) && x == ps[j] + "=" + EncodeValue(Get(o, ps[j]), enc) {
        var j :| 0 <= j < |ps| && Truthy(Get(o, ps[j])) && x == ps[j] + "=" + EncodeValue(Get(o, ps[j]), enc);
        if j > 0 {
          assert ps[1..][j - 1] == ps[j];
        }
      }
      if x in ParamParts(o, ps[1..], enc) {
        var j :| 0 <= j < |ps[1..]| && Truthy(Get(o, ps[1..][j])) && x == ps[1..][j] + "=" + EncodeValue(Get(o, ps[1..][j]), enc);
        assert ps[j + 1] == ps[1..][j];
      }
    }
  }

  /** 'limit' and 'offset' are read whatever the endpoint's parameter list. */
  lemma LimitAlwaysConsidered(o: Value, params: seq<string>, enc: string -> string)
    requires Truthy(Get(o, "limit"))
    ensures "limit=" + EncodeValue(Get(o, "limit"), enc) in ParamParts(o, Considered(params), enc)
  {
    var ps := Considered(params);
    assert ps[|params|] == "limit";
    ParamPartsMembers(o, ps, enc, "limit=" + EncodeValue(Get(o, "limit"), enc));
  }

  /** The range fields of the options object. */
  function RangeOf(o: Value): TimeRange.RangeSpec {
    TimeRange.RangeSpec(Get(o, "start"), Get(o, "end"), Get(o, "span"), Get(o, "center"))
  }

  /** Whether any range field is set. */
  predicate WantsRange(o: Value) {
    Truthy(Get(o, "end")) || Truthy(Get(o, "start")) || Truthy(Get(o, "span")) || Truthy(Get(o, "center"))
  }

  /** `startDate=…&endDate=…`; `iso` formats a time as
      `toISOString().substring(0,19)+'Z'`. */
  function RangeText(w: TimeRange.Window, enc: string -> string, iso: int -> string): string {
    StartPart(w, enc, iso) + "&" + EndPart(w, enc, iso)
  }

  function StartPart(w: TimeRange.Window, enc: string -> string, iso: int -> string): string {
    "startDate=" + enc(iso(w.start))
  }

  function EndPart(w: TimeRange.Window, enc: string -> string, iso: int -> string): string {
    "endDate=" + enc(iso(w.end))
  }

  /** `buildQueryParams(o, paramList)`: `o` is `None` for a falsy options
      argument; a bad range throws. */
  function BuildQueryParams(o: Option<Value>, params: seq<string>, enc: string -> string,
                            now: int, date: Value -> int, iso: int -> string): (r: Result<string>)
    ensures o.None? ==> r == Ok("")
    ensures o.Some? && WantsRange(o.value) && TimeRange.ReqTimeRange(RangeOf(o.value), now, date).Err? ==>
      r == Err(TimeRange.ReqTimeRange(RangeOf(o.value), now, date).message)
    ensures r.Ok? && r.value != "" ==> r.value[0] == '?'
    ensures r.Ok? && o.Some? ==> (r.value == "" <==> !WantsRange(o.value) && |ParamParts(o.value, Considered(params), enc)| == 0)
    ensures r.Ok? && o.Some? && r.value != "" ==>
      r.value[1..] == Join(ParamParts(o.value, Considered(params), enc) +
        (if WantsRange(o.value) then [RangeText(TimeRange.ReqTimeRange(RangeOf(o.value), now, date).value, enc, iso)] else []), "&")
  {
    if o.None? then Ok("")
    else
      var qs := ParamParts(o.value, Considered(params), enc);
      if WantsRange(o.value) then
        match TimeRange.ReqTimeRange(RangeOf(o.value), now, date)
        case Err(m) => Err(m)
        case Ok(w) => Ok("?" + Join(qs + [RangeText(w, enc, iso)], "&"))
      else if |qs| == 0 then Ok("")
      else
        assert qs + [] == qs;
        Ok("?" + Join(qs, "&"))
  }

  /** No part holds an ampersand when the parameter names hold none. */
  lemma {:induction false} ParamPartsClean(o: Value, ps: seq<string>, enc: string -> string)
    requires Escapes(enc)
    requires forall j | 0 <= j < |ps| :: '&' !in ps[j]
    ensures forall i | 0 <= i < |ParamParts(o, ps, enc)| :: '&' !in ParamParts(o, ps, enc)[i]
    decreases |ps|
  {
    if |ps| > 0 {
      ParamPartsClean(o, ps[1..], enc);
      var v := Get(o, ps[0]);
      if v.List? { EncodedListClean(v.items, enc); }
      assert '&' !in ps[0] + "=" + EncodeValue(v, enc);
    }
  }

  /** The query string of options that ask for a range. */
  lemma SplitsWithRange(o: Value, params: seq<string>, enc: string -> string,
                        now: int, date: Value -> int, iso: int -> string)
    requires Escapes(enc)
    requires forall i | 0 <= i < |ParamParts(o, Considered(params), enc)| :: '&' !in ParamParts(o, Considered(params), enc)[i]
    requires WantsRange(o) && TimeRange.ReqTimeRange(RangeOf(o), now, date).Ok?
    ensures var w := TimeRange.ReqTimeRange(RangeOf(o), now, date).value;
      Split(BuildQueryParams(Some(o), params, enc, now, date, iso).value[1..], '&') ==
        ParamParts(o, Considered(params), enc) + [StartPart(w, enc, iso), EndPart(w, enc, iso)]
  {
    var w := TimeRange.ReqTimeRange(RangeOf(o), now, date).value;
    var qs := ParamParts(o, Considered(params), enc);
    var r := BuildQueryParams(Some(o), params, enc, now, date, iso);
    assert r.value[1..] == Join(qs + [StartPart(w, enc, iso) + "&" + EndPart(w, enc, iso)], "&");
    assert '&' !in StartPart(w, enc, iso) && '&' !in EndPart(w, enc, iso);
    assert "&" == ['&'];
    SplitJoinLast(qs, StartPart(w, enc, iso), EndPart(w, enc, iso), '&');
  }

  /** The query string of options without a range. */
  lemma SplitsWithoutRange(o: Value, params: seq<string>, enc: string -> string,
                           now: int, date: Value -> int, iso: int -> string)
    requires forall i | 0 <= i < |ParamParts(o, Considered(params), enc)| :: '&' !in ParamParts(o, Considered(params), enc)[i]
    requires !WantsRange(o) && |ParamParts(o, Considered(params), enc)| > 0
    ensures Split(BuildQueryParams(Some(o), params, enc, now, date, iso).value[1..], '&') == ParamParts(o, Considered(params), enc)
  {
    SplitJoin(ParamParts(o, Considered(params), enc), '&');
  }

  /** Reading a built query string back at its ampersands gives the parts of
      the truthy considered fields in order, followed by the window's
      `startDate` and `endDate` when a range was asked for. */
  lemma BuildQueryParamsSplits(o: Value, params: seq<string>, enc: string -> string,
                               now: int, date: Value -> int, iso: int -> string)
    requires Escapes(enc)
    requires forall j | 0 <= j < |params| :: '&' !in params[j]
    ensures var r := BuildQueryParams(Some(o), params, enc, now, date, iso);
      && (!WantsRange(o) && r.value != "" ==> Split(r.value[1..], '&') == ParamParts(o, Considered(params), enc))
      && (WantsRange(o) && TimeRange.ReqTimeRange(RangeOf(o), now, date).Ok? ==>
            var w := TimeRange.ReqTimeRange(RangeOf(o), now, date).value;
            Split(r.value[1..], '&') == ParamParts(o, Considered(params), enc) + [StartPart(w, enc, iso), EndPart(w, enc, iso)])
  {
    var ps := Considered(params);
    assert ps[|params|] == "limit" && ps[|params| + 1] == "offset";
    ParamPartsClean(o, ps, enc);
    if WantsRange(o) && TimeRange.ReqTimeRange(RangeOf(o), now, date).Ok? {
      SplitsWithRange(o, params, enc, now, date, iso);
    } else if !WantsRange(o) && |ParamParts(o, ps, enc)| > 0 {
      SplitsWithoutRange(o, params, enc, now, date, iso);
    }
  }

  /** The two builders disagree on falsy values: `encodeQuery` keeps a 0 or
      false entry that `buildQueryParams` leaves out. */
  lemma ZeroKeptOnlyByEncodeQuery(k: string, enc: string -> string, now: int, date: Value -> int, iso: int -> string)
    requires k != "start" && k != "end" && k != "span" && k != "center" && k != "limit" && k != "offset"
    ensures EncodeQuery(Some([(k, Num(0))]), enc) == "?" + enc(k) + "=" + enc("0")
    ensures BuildQueryParams(Some(Obj([(k, Num(0))])), [k], enc, now, date, iso) == Ok("")
  {
    assert ToString(Num(0)) == "0";
    assert Parts([(k, Num(0))], enc) == [enc(k) + "=" + enc("0")];
    assert Join([enc(k) + "=" + enc("0")], "&") == enc(k) + "=" + enc("0");
    ZeroNotTruthy(k, enc);
  }

  /** A zero is not truthy, so `buildQueryParams` leaves it out. */
  lemma ZeroNotTruthy(k: string, enc: string -> string)
    requires k != "start" && k != "end" && k != "span" && k != "center" && k != "limit" && k != "offset"
    ensures !WantsRange(Obj([(k, Num(0))])) && ParamParts(Obj([(k, Num(0))]), Considered([k]), enc) == []
  {
    var o := Obj([(k, Num(0))]);
    assert Considered([k]) == [k, "limit", "offset"];
    assert Get(o, "limit") == Undefined && Get(o, "offset") == Undefined;
    assert !WantsRange(o);
    assert ParamParts(o, ["offset"], enc) == [];
    assert ParamParts(o, ["limit", "offset"], enc) == [];
  }
}
