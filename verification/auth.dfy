/** The request options both clients build before a call: `buildAuth` in
    cdnpro-helper.js and `_buildAuth`/`request` in client/ApiCore.js, with the
    status decision and the response decoding of `_callServer`. The clock's
    date string, the signed credential, percent-encoding and JSON are
    parameters; the transport is not part of this model. */
module Auth {
  import opened Wrappers
  import opened Strings
  import opened JsValues
  import Query

  /** Header names and their values, as set on the options object. */
  type Headers = map<string, Value>

  /** The options handed to the transport. */
  datatype Options = Options(hostname: Value, headers: Headers, timeout: Value, abortOnError: Value, verbose: Value)

  /** `toUTCString()` of the clock and the base64 text of `user:hmac`. */
  datatype Signature = Signature(date: string, credential: string)

  const USER_AGENT: string := "CDNProCLI-js/1.0"
  const JSON_TYPE: string := "application/json; charset=UTF-8"
  const NO_SECRET: string := "Server Secret is not set"
  const INCOMPLETE_INFO: string := "serverInfo must include {host, user, secretKey}"
  /** `crypto.createHmac` refuses a key that is not a string (Node's message,
      shortened). */
  const KEY_NOT_STRING: string := "The \"key\" argument must be of type string"
  /** Reading `secretKey` of undefined. */
  const INFO_UNDEFINED: string := "Cannot read properties of undefined (reading 'secretKey')"

  /** The headers every call carries. */
  function BaseHeaders(sig: Signature): Headers {
    map[
      "Accept" := Str("application/json"),
      "Authorization" := Str(" Basic " + sig.credential),
      "Date" := Str(sig.date),
      "Accept-Encoding" := Str("gzip"),
      "User-Agent" := Str(USER_AGENT)]
  }

  /** The headers the options can set. */
  predicate OptionHeader(k: string) {
    k == "Cache-Control" || k == "Report-Range" || k == "On-Behalf-Of" || k == "x-debug"
  }

  /** The three report ranges the helper accepts. */
  predicate KnownRange(v: Value) {
    v == Str("self-only") || v == Str("self+children") || v == Str("children-only")
  }

  /** The seven option fields the builders read. `request` always passes
      all seven keys, undefined where the merged options leave them unset. */
  datatype AuthOptions = AuthOptions(
    noCache: Value, includeChildren: Value, reportRange: Value, onBehalfOf: Value,
    abortOnError: Value, verbose: Value, debug: Value)

  /** The option fields of an object. */
  function OptionsOf(o: Value): AuthOptions {
    AuthOptions(
      Get(o, "noCache"), Get(o, "includeChildren"), Get(o, "reportRange"), Get(o, "onBehalfOf"),
      Get(o, "abortOnError"), Get(o, "verbose"), Get(o, "debug"))
  }

  /** Every header of `h` the options cannot set is in `r` unchanged, and
      `r` has no other header beyond those the options set. */
  predicate Keeps(h: Headers, r: Headers) {
    && (forall k | k in h && !OptionHeader(k) :: k in r && r[k] == h[k])
    && (forall k | k in r && !OptionHeader(k) :: k in h)
  }

  /** Whether a builder sets `On-Behalf-Of` for the value: the helper for a
      truthy one, the client for any non-nullish one. */
  predicate SetsBehalf(b: Value, stringify: bool) {
    if stringify then !Nullish(b) else Truthy(b)
  }

  /** The cache and report-range headers: `noCache`, then
      `includeChildren`, then `reportRange`, which wins over
      `includeChildren`. */
  function RangeHeaders(h: Headers, f: AuthOptions): (r: Headers)
    ensures Keeps(h, r)
    ensures "On-Behalf-Of" in r <==> "On-Behalf-Of" in h
    ensures "x-debug" in r <==> "x-debug" in h
    ensures "Cache-Control" in r <==> "Cache-Control" in h || f.noCache == Bool(true)
    ensures f.noCache == Bool(true) ==> r["Cache-Control"] == Str("no-cache")
    ensures "Report-Range" in r <==> "Report-Range" in h || f.includeChildren == Bool(true) || Truthy(f.reportRange)
    ensures Truthy(f.reportRange) ==> r["Report-Range"] == f.reportRange
    ensures !Truthy(f.reportRange) && f.includeChildren == Bool(true) ==> r["Report-Range"] == Str("self+children")
  {
    var h1 := if f.noCache == Bool(true) then h["Cache-Control" := Str("no-cache")] else h;
    var h2 := if f.includeChildren == Bool(true) then h1["Report-Range" := Str("self+children")] else h1;
    if Truthy(f.reportRange) then h2["Report-Range" := f.reportRange] else h2
  }

  /** The `On-Behalf-Of` and `x-debug` headers. */
  function IdentityHeaders(h: Headers, f: AuthOptions, stringify: bool): (r: Headers)
    ensures Keeps(h, r)
    ensures forall k | k in h && k != "On-Behalf-Of" && k != "x-debug" :: k in r && r[k] == h[k]
    ensures "On-Behalf-Of" in r <==> "On-Behalf-Of" in h || SetsBehalf(f.onBehalfOf, stringify)
    ensures SetsBehalf(f.onBehalfOf, stringify) ==>
      r["On-Behalf-Of"] == if stringify then Str(ToString(f.onBehalfOf)) else f.onBehalfOf
    ensures "x-debug" in r <==> "x-debug" in h || !Nullish(f.debug)
    ensures !Nullish(f.debug) ==> r["x-debug"] == f.debug
  {
    var b := f.onBehalfOf;
    var h1 := if SetsBehalf(b, stringify) then h["On-Behalf-Of" := if stringify then Str(ToString(b)) else b] else h;
    if !Nullish(f.debug) then h1["x-debug" := f.debug] else h1
  }

  /** The option-driven headers, in the order both builders apply them.
      The helper sets `On-Behalf-Of` to the value as given (`stringify`
      false); the client to `String(v)`. */
  function OptionHeaders(h: Headers, f: AuthOptions, stringify: bool): (r: Headers)
    ensures Keeps(h, r)
    ensures "Cache-Control" in r <==> "Cache-Control" in h || f.noCache == Bool(true)
    ensures "Report-Range" in r <==> "Report-Range" in h || f.includeChildren == Bool(true) || Truthy(f.reportRange)
    ensures Truthy(f.reportRange) ==> r["Report-Range"] == f.reportRange
    ensures "On-Behalf-Of" in r <==> "On-Behalf-Of" in h || SetsBehalf(f.onBehalfOf, stringify)
    ensures SetsBehalf(f.onBehalfOf, stringify) ==>
      r["On-Behalf-Of"] == if stringify then Str(ToString(f.onBehalfOf)) else f.onBehalfOf
  {
    var h1 := RangeHeaders(h, f);
    var r := IdentityHeaders(h1, f, stringify);
    assert "Report-Range" in h1 ==> r["Report-Range"] == h1["Report-Range"];
    r
  }

  /** Every base header is still there, with its value. */
  predicate HasBase(h: Headers, sig: Signature) {
    forall k | k in BaseHeaders(sig) :: k in h && h[k] == BaseHeaders(sig)[k]
  }

  /** No option touches a base header. */
  lemma {:induction false} KeepsBase(sig: Signature, r: Headers)
    requires Keeps(BaseHeaders(sig), r)
    ensures HasBase(r, sig)
  {
    forall k | k in BaseHeaders(sig) ensures !OptionHeader(k) {
      assert k == "Accept" || k == "Authorization" || k == "Date" || k == "Accept-Encoding" || k == "User-Agent";
    }
  }

  /** `serverInfo || serverSecret` in the helper. */
  function HelperInfo(serverInfo: Value, stored: Value): Value {
    if Truthy(serverInfo) then serverInfo else stored
  }

  /** The helper's `buildAuth(serverInfo, options)`; `stored` is the server
      information set earlier with `setServerInfo`. */
  function BuildAuth(serverInfo: Value, stored: Value, options: Value, sig: Signature): (r: Result<Options>)
    ensures HelperInfo(serverInfo, stored) == Null ==> r == Err(NO_SECRET)
    ensures r.Ok? <==>
      && !Nullish(HelperInfo(serverInfo, stored))
      && Get(HelperInfo(serverInfo, stored), "secretKey").Str?
      && !(Truthy(options) && Truthy(Get(options, "reportRange")) && !KnownRange(Get(options, "reportRange")))
    ensures r.Ok? ==> r.value.hostname == Get(HelperInfo(serverInfo, stored), "host") && r.value.timeout == Num(10000)
    ensures r.Ok? ==> HasBase(r.value.headers, sig)
    ensures r.Ok? && "Report-Range" in r.value.headers ==> KnownRange(r.value.headers["Report-Range"])
    ensures r.Ok? ==> ("On-Behalf-Of" in r.value.headers <==> Truthy(options) && Truthy(Get(options, "onBehalfOf")))
    ensures r.Ok? ==> (r.value.abortOnError ==
      if Truthy(options) && !Nullish(Get(options, "abortOnError")) then Get(options, "abortOnError") else Bool(true))
    ensures r.Ok? ==> (r.value.verbose ==
      if Truthy(options) && !Nullish(Get(options, "verbose")) then Get(options, "verbose") else Num(0))
  {
    var info := HelperInfo(serverInfo, stored);
    if info.Null? then Err(NO_SECRET)
    else if info.Undefined? then Err(INFO_UNDEFINED)
    else if !Get(info, "secretKey").Str? then Err(KEY_NOT_STRING)
    else
      var base := Options(Get(info, "host"), BaseHeaders(sig), Num(10000), Bool(true), Num(0));
      if !Truthy(options) then
        KeepsBase(sig, base.headers);
        Ok(base)
      else
        var f := OptionsOf(options);
        if Truthy(f.reportRange) && !KnownRange(f.reportRange) then
          Err("reportRange '" + ToString(f.reportRange) + "' is not recognized")
        else
          var heads := OptionHeaders(base.headers, f, false);
          KeepsBase(sig, heads);
          Ok(base.(
            headers := heads,
            abortOnError := if Nullish(f.abortOnError) then base.abortOnError else f.abortOnError,
            verbose := if Nullish(f.verbose) then base.verbose else f.verbose))
  }

  /** The client's server information is usable: an object with a truthy
      host, user and secret key. */
  predicate CompleteInfo(info: Value) {
    Truthy(info) && Truthy(Get(info, "host")) && Truthy(Get(info, "user")) && Truthy(Get(info, "secretKey"))
  }

  /** The client's `_buildAuth(options)` exactly as written: the options are
      spread over the defaults, so the `abortOnError` key, present with the
      value undefined when the caller did not set it, replaces the default
      true, and the later `!= null` test does not put the default back. */
  function BuildAuthAsWritten(info: Value, f: AuthOptions, sig: Signature): (r: Result<Options>)
    ensures r.Ok? <==> CompleteInfo(info) && Get(info, "secretKey").Str?
    ensures r.Ok? ==> r.value.abortOnError == f.abortOnError
  {
    if !CompleteInfo(info) then Err(INCOMPLETE_INFO)
    else if !Get(info, "secretKey").Str? then Err(KEY_NOT_STRING)
    else
      var spread := Options(Get(info, "host"), BaseHeaders(sig), Num(10000), f.abortOnError, f.verbose);
      Ok(spread.(
        headers := OptionHeaders(spread.headers, f, true),
        abortOnError := if Nullish(f.abortOnError) then spread.abortOnError else f.abortOnError,
        verbose := if Nullish(f.verbose) then spread.verbose else f.verbose))
  }

  /** The client's `_buildAuth(options)` with the defaults kept for a
      nullish `abortOnError` or `verbose`, as the later `!= null` tests
      intend. The `reportRange` value is not checked here. */
  function BuildAuthCore(info: Value, f: AuthOptions, sig: Signature): (r: Result<Options>)
    ensures r.Ok? <==> CompleteInfo(info) && Get(info, "secretKey").Str?
    ensures !CompleteInfo(info) ==> r == Err(INCOMPLETE_INFO)
    ensures r.Ok? ==> r.value.hostname == Get(info, "host") && r.value.timeout == Num(10000)
    ensures r.Ok? ==> r.value.abortOnError == if Nullish(f.abortOnError) then Bool(true) else f.abortOnError
    ensures r.Ok? ==> r.value.verbose == if Nullish(f.verbose) then Num(0) else f.verbose
    ensures r.Ok? ==> HasBase(r.value.headers, sig) && Keeps(BaseHeaders(sig), r.value.headers)
    ensures r.Ok? ==> ("On-Behalf-Of" in r.value.headers <==> !Nullish(f.onBehalfOf))
    ensures r.Ok? && "On-Behalf-Of" in r.value.headers ==> r.value.headers["On-Behalf-Of"] == Str(ToString(f.onBehalfOf))
    ensures r.Ok? && Truthy(f.reportRange) ==> "Report-Range" in r.value.headers && r.value.headers["Report-Range"] == f.reportRange
  {
    if !CompleteInfo(info) then Err(INCOMPLETE_INFO)
    else if !Get(info, "secretKey").Str? then Err(KEY_NOT_STRING)
    else
      var base := Options(Get(info, "host"), BaseHeaders(sig), Num(10000), Bool(true), Num(0));
      var heads := OptionHeaders(base.headers, f, true);
      KeepsBase(sig, heads);
      Ok(base.(
        headers := heads,
        abortOnError := if Nullish(f.abortOnError) then base.abortOnError else f.abortOnError,
        verbose := if Nullish(f.verbose) then base.verbose else f.verbose))
  }

  /** The two client builders differ only where the caller leaves
      `abortOnError` nullish: then the as-written one keeps the nullish
      value and the corrected one the default true. */
  lemma AbortFlagsAgreeWhenSet(info: Value, f: AuthOptions, sig: Signature)
    requires CompleteInfo(info) && Get(info, "secretKey").Str?
    ensures BuildAuthAsWritten(info, f, sig).value.abortOnError == BuildAuthCore(info, f, sig).value.abortOnError
      <==> !Nullish(f.abortOnError)
  {
  }

  /** The helper refuses a report range it does not know, naming it. */
  lemma HelperRefusesUnknownRange(info: Value, options: Value, sig: Signature)
    requires !Nullish(info) && Get(info, "secretKey").Str?
    requires Truthy(options) && Truthy(Get(options, "reportRange")) && !KnownRange(Get(options, "reportRange"))
    ensures BuildAuth(info, Null, options, sig) == Err("reportRange '" + ToString(Get(options, "reportRange")) + "' is not recognized")
  {
    assert HelperInfo(info, Null) == info;
  }

  /** The client sends the same range on as given. */
  lemma ClientSendsUnknownRange(info: Value, options: Value, sig: Signature)
    requires CompleteInfo(info) && Get(info, "secretKey").Str?
    requires Truthy(Get(options, "reportRange"))
    ensures BuildAuthCore(info, OptionsOf(options), sig).value.headers["Report-Range"] == Get(options, "reportRange")
  {
  }

  /** `onBehalfOf: 0` is falsy, so only the client, which tests for null,
      sends `On-Behalf-Of: 0`. */
  lemma ZeroBehalfOnlyClientSends(info: Value, sig: Signature)
    requires CompleteInfo(info) && Get(info, "secretKey").Str?
    ensures "On-Behalf-Of" !in BuildAuth(info, Null, Obj([("onBehalfOf", Num(0))]), sig).value.headers
    ensures BuildAuthCore(info, OptionsOf(Obj([("onBehalfOf", Num(0))])), sig).value.headers["On-Behalf-Of"] == Str("0")
  {
    assert OptionsOf(Obj([("onBehalfOf", Num(0))])).onBehalfOf == Num(0);
    assert IntToString(0) == "0";
  }

  /** The status codes `_callServer` treats as success. */
  predicate StatusOk(status: int) {
    status == 200 || status == 201 || status == 204
  }

  /** How the call settles. */
  datatype Settled = Resolved(obj: Value) | Rejected(message: string, body: Value)

  /** Resolve, or reject with the decoded body attached. */
  function Settle(status: int, abortOnError: Value, obj: Value): (r: Settled)
    ensures r.Rejected? <==> !StatusOk(status) && abortOnError == Bool(true)
    ensures r.Resolved? ==> r.obj == obj
    ensures r.Rejected? ==> r.body == obj && StartsWith(r.message, "Status code is ")
  {
    if StatusOk(status) || abortOnError != Bool(true) then Resolved(obj)
    else Rejected("Status code is " + IntToString(status) + ", not 200/201/204", obj)
  }

  /** The response body: parsed when the content type names JSON (empty
      gives null, a parse failure keeps the text), the text otherwise.
      `parse` is `JSON.parse`, `None` where it throws. */
  function Decode(contentType: string, data: string, parse: string -> Option<Value>): (r: Value)
    ensures !Contains(contentType, "application/json") ==> r == Str(data)
    ensures Contains(contentType, "application/json") && data == "" ==> r == Null
    ensures Contains(contentType, "application/json") && data != "" ==>
      r == parse(data).GetOr(Str(data))
  {
    if !Contains(contentType, "application/json") then Str(data)
    else if data == "" then Null
    else match parse(data)
      case Some(v) => v
      case None => Str(data)
  }

  /** Whether the object has an own entry for the key. */
  predicate HasKey(o: Value, k: string) {
    o.Obj? && exists j | 0 <= j < |o.entries| :: o.entries[j].0 == k
  }

  /** `{ ...defaults, ...(req || {}) }`: the request's own entries follow
      the defaults', so they win on lookup. */
  function Merge(defaults: Value, req: Value): Value {
    Obj((if defaults.Obj? then defaults.entries else []) + (if req.Obj? then req.entries else []))
  }

  /** A lookup in appended entries finds the later list's entry first. */
  lemma {:induction false} GetAppend(a: seq<(string, Value)>, b: seq<(string, Value)>, k: string)
    ensures Get(Obj(a + b), k) == if HasKey(Obj(b), k) then Get(Obj(b), k) else Get(Obj(a), k)
    decreases |b|
  {
    if |b| > 0 {
      var n := |b|;
      assert (a + b)[|a + b| - 1] == b[n - 1];
      if b[n - 1].0 == k {
        assert HasKey(Obj(b), k);
      } else {
        assert (a + b)[..|a + b| - 1] == a + b[..n - 1];
        GetAppend(a, b[..n - 1], k);
        HasKeyInit(b, k);
      }
    } else {
      assert a + b == a;
    }
  }

  /** A key the last entry does not carry is set by the entries before it
      or not at all. */
  lemma HasKeyInit(b: seq<(string, Value)>, k: string)
    requires |b| > 0 && b[|b| - 1].0 != k
    ensures HasKey(Obj(b), k) <==> HasKey(Obj(b[..|b| - 1]), k)
  {
    if HasKey(Obj(b), k) {
      var j :| 0 <= j < |b| && b[j].0 == k;
      assert b[..|b| - 1][j].0 == k;
    }
    if HasKey(Obj(b[..|b| - 1]), k) {
      var j :| 0 <= j < |b| - 1 && b[..|b| - 1][j].0 == k;
      assert b[j].0 == k;
    }
  }

  /** Each merged field is the request's when it sets it, else the
      default's. */
  lemma MergeGet(defaults: Value, req: Value, k: string)
    ensures Get(Merge(defaults, req), k) == if HasKey(req, k) then Get(req, k) else Get(defaults, k)
  {
    var a := if defaults.Obj? then defaults.entries else [];
    var b := if req.Obj? then req.entries else [];
    GetAppend(a, b, k);
  }

  /** The header entries of an object, later entries winning. */
  function HeaderMap(v: Value): (r: Headers)
    ensures forall k :: k in r <==> HasKey(v, k)
    ensures forall k | k in r :: r[k] == Get(v, k)
    decreases if v.Obj? then |v.entries| else 0
  {
    if !v.Obj? || |v.entries| == 0 then map[]
    else
      var n := |v.entries|;
      var init := Obj(v.entries[..n - 1]);
      var m := HeaderMap(init);
      forall k | HasKey(v, k) && k != v.entries[n - 1].0 ensures HasKey(init, k) {
        var j :| 0 <= j < n && v.entries[j].0 == k;
        assert init.entries[j].0 == k;
      }
      m[v.entries[n - 1].0 := v.entries[n - 1].1]
  }

  /** The request ready for the transport: options, method, path and the
      serialised body. */
  datatype Call = Call(options: Options, verb: string, path: string, body: Option<string>)

  /** The clock, the signature and the abstract encoders. */
  datatype Env = Env(sig: Signature, enc: string -> string, stringify: Value -> string, parse: string -> Option<Value>)

  /** The entries `withQuery` reads from a query value: none for a falsy
      one, else `Object.entries(query)`, which gives an object's own
      entries, a string's characters and an array's elements under their
      indices, and nothing for a number or `true`. */
  function QueryEntries(q: Value): (r: Option<seq<(string, Value)>>)
    ensures r.None? <==> !Truthy(q)
    ensures q.Obj? ==> r == Some(q.entries)
    ensures Truthy(q) && q.Str? ==>
      && |r.value| == |q.s|
      && forall k | 0 <= k < |q.s| :: r.value[k] == (NatToString(k), Str([q.s[k]]))
    ensures Truthy(q) && q.List? ==>
      && |r.value| == |q.items|
      && forall k | 0 <= k < |q.items| :: r.value[k] == (NatToString(k), q.items[k])
    ensures Truthy(q) && (q.Num? || q.Bool?) ==> r == Some([])
  {
    if !Truthy(q) then None
    else match q
      case Obj(es) => Some(es)
      case Str(s) => Some(Indexed(Characters(s), 0))
      case List(items) => Some(Indexed(items, 0))
      case _ => Some([])
  }

  /** The one-character strings of `s`. */
  function Characters(s: string): (r: seq<Value>)
    ensures |r| == |s| && forall k | 0 <= k < |s| :: r[k] == Str([s[k]])
  {
    if |s| == 0 then [] else [Str([s[0]])] + Characters(s[1..])
  }

  /** The values under their indices, counted from `from`. */
  function Indexed(vs: seq<Value>, from: nat): (r: seq<(string, Value)>)
    ensures |r| == |vs| && forall k | 0 <= k < |vs| :: r[k] == (NatToString(from + k), vs[k])
  {
    if |vs| == 0 then [] else [(NatToString(from), vs[0])] + Indexed(vs[1..], from + 1)
  }

  /** A string query is sent character by character under index keys:
      `query: 'ab'` gives '?0=a&1=b'. */
  lemma StringQueryByIndex(path: string, enc: string -> string)
    requires !Contains(path, "?")
    ensures Query.WithQuery(path, QueryEntries(Str("ab")), enc) ==
      path + ("?" + (enc("0") + "=" + enc("a")) + "&" + (enc("1") + "=" + enc("b")))
  {
    var qs := "?" + (enc("0") + "=" + enc("a")) + "&" + (enc("1") + "=" + enc("b"));
    StringQueryEncodes(enc);
    assert Query.EncodeQuery(QueryEntries(Str("ab")), enc) == qs;
  }

  /** `encodeQuery('ab')` walks the string's index entries: each character
      becomes a `index=character` part, joined with '&' after a '?'. */
  lemma StringQueryEncodes(enc: string -> string)
    ensures Query.EncodeQuery(QueryEntries(Str("ab")), enc) ==
      "?" + (enc("0") + "=" + enc("a")) + "&" + (enc("1") + "=" + enc("b"))
  {
    var es := QueryEntries(Str("ab")).value;
    assert NatToString(0) == "0" && NatToString(1) == "1";
    assert es[0] == ("0", Str("a")) && es[1] == ("1", Str("b")) && |es| == 2;
    assert es[1..] == [("1", Str("b"))];
    var tail := Query.Parts(es[1..], enc);
    assert tail == [enc("1") + "=" + enc("b")];
    var parts := Query.Parts(es, enc);
    assert parts == [enc("0") + "=" + enc("a")] + tail;
    assert Join(parts, "&") == parts[0] + "&" + parts[1] by {
      assert parts[1..] == [parts[1]];
    }
  }

  /** The body as sent: strings as they are, objects and arrays as JSON,
      anything else through `String()`. */
  function Serialise(body: Value, stringify: Value -> string): string {
    if body.Str? then body.s
    else if body.Obj? || body.List? then stringify(body)
    else ToString(body)
  }

  /** The caller's headers laid over the built ones: a caller's header
      wins over a built header of the same name. */
  function WithHeaders(h: Headers, extra: Value): (r: Headers)
    ensures forall k | HasKey(extra, k) :: k in r && r[k] == Get(extra, k)
    ensures forall k | k in h && !HasKey(extra, k) :: k in r && r[k] == h[k]
    ensures forall k | k in r :: k in h || HasKey(extra, k)
  {
    if Truthy(extra) then h + HeaderMap(extra) else h
  }

  /** The JSON content type is added unless a truthy `Content-Type`
      header, spelt exactly so, is already there. */
  function ContentTyped(h: Headers): (r: Headers)
    ensures "Content-Type" in r && Truthy(r["Content-Type"])
    ensures "Content-Type" in h && Truthy(h["Content-Type"]) ==> r == h
    ensures !("Content-Type" in h && Truthy(h["Content-Type"])) ==> r["Content-Type"] == Str(JSON_TYPE)
    ensures forall k | k in h && k != "Content-Type" :: k in r && r[k] == h[k]
    ensures forall k | k in r && k != "Content-Type" :: k in h
  {
    if "Content-Type" in h && Truthy(h["Content-Type"]) then h
    else h["Content-Type" := Str(JSON_TYPE)]
  }

  /** `request(verb, path, req)` up to the call, on the merged options: the
      corrected `_buildAuth`, the query, the caller's headers over the built
      ones, and the body with a default content type. */
  function Prepare(verb: string, path: string, merged: Value, info: Value, env: Env): (r: Result<Call>)
    ensures r.Ok? <==> CompleteInfo(info) && Get(info, "secretKey").Str?
    ensures r.Ok? ==> r.value.verb == verb && r.value.path == Query.WithQuery(path, QueryEntries(Get(merged, "query")), env.enc)
    ensures r.Ok? ==> (r.value.options.abortOnError ==
      if Nullish(Get(merged, "abortOnError")) then Bool(true) else Get(merged, "abortOnError"))
    ensures r.Ok? ==> (r.value.body.Some? <==> !Nullish(Get(merged, "body")))
    ensures r.Ok? && r.value.body.Some? ==> r.value.body.value == Serialise(Get(merged, "body"), env.stringify)
    ensures r.Ok? && r.value.body.Some? ==> "Content-Type" in r.value.options.headers && Truthy(r.value.options.headers["Content-Type"])
  {
    match BuildAuthCore(info, OptionsOf(merged), env.sig)
    case Err(m) => Err(m)
    case Ok(o) =>
      var p := Query.WithQuery(path, QueryEntries(Get(merged, "query")), env.enc);
      var heads := WithHeaders(o.headers, Get(merged, "headers"));
      var b := Get(merged, "body");
      if Nullish(b) then Ok(Call(o.(headers := heads), verb, p, None))
      else Ok(Call(o.(headers := ContentTyped(heads)), verb, p, Some(Serialise(b, env.stringify))))
  }

  /** The server's reply: status, content type ('' when absent) and the
      decompressed text. */
  datatype Reply = Reply(status: int, contentType: string, data: string)

  /** What `request` returns: the decoded body, or with `raw` the body and
      the call context; or the rejection. */
  datatype Answer = Body(obj: Value) | WithContext(obj: Value) | Failed(message: string)

  /** `request(verb, path, req)` answered with `reply`, built with the
      corrected `_buildAuth`. */
  function Request(verb: string, path: string, req: Value, defaults: Value, info: Value, env: Env, reply: Reply): (r: Result<Answer>)
    ensures r.Ok? <==> CompleteInfo(info) && Get(info, "secretKey").Str?
    ensures r.Ok? ==> (r.value.Failed? <==>
      !StatusOk(reply.status) && Prepare(verb, path, Merge(defaults, req), info, env).value.options.abortOnError == Bool(true))
    ensures r.Ok? && !r.value.Failed? ==> r.value.obj == Decode(reply.contentType, reply.data, env.parse)
    ensures r.Ok? && !r.value.Failed? ==> (r.value.WithContext? <==> Truthy(Get(Merge(defaults, req), "raw")))
  {
    var merged := Merge(defaults, req);
    match Prepare(verb, path, merged, info, env)
    case Err(m) => Err(m)
    case Ok(call) =>
      match Settle(reply.status, call.options.abortOnError, Decode(reply.contentType, reply.data, env.parse))
      case Rejected(m, _) => Ok(Failed(m))
      case Resolved(obj) =>
        if Truthy(Get(merged, "raw")) then Ok(WithContext(obj)) else Ok(Body(obj))
  }

  /** With the corrected `_buildAuth`, a request fails on a non-OK status
      exactly when the caller leaves `abortOnError` unset or sets it to true.
      As written, leaving it unset resolves instead (see
      `SpreadKeepsUndefinedAbort`). */
  lemma {:induction false} ErrorStatusRejects(verb: string, path: string, req: Value, defaults: Value, info: Value, env: Env, reply: Reply)
    requires CompleteInfo(info) && Get(info, "secretKey").Str?
    ensures var a := if HasKey(req, "abortOnError") then Get(req, "abortOnError") else Get(defaults, "abortOnError");
      Request(verb, path, req, defaults, info, env, reply).Ok? &&
      (Request(verb, path, req, defaults, info, env, reply).value.Failed? <==>
        !StatusOk(reply.status) && (Nullish(a) || a == Bool(true)))
  {
    MergeGet(defaults, req, "abortOnError");
  }

  /** As written, a request made with no `abortOnError` in its own options
      nor in the client's defaults resolves on an error status: the spread
      copies the undefined field over the default. */
  lemma {:induction false} SpreadKeepsUndefinedAbort(info: Value, req: Value, defaults: Value, sig: Signature, status: int, obj: Value)
    requires CompleteInfo(info) && Get(info, "secretKey").Str?
    requires !HasKey(req, "abortOnError") && !HasKey(defaults, "abortOnError")
    requires !StatusOk(status)
    ensures var o := BuildAuthAsWritten(info, OptionsOf(Merge(defaults, req)), sig);
      o.Ok? && o.value.abortOnError == Undefined && Settle(status, o.value.abortOnError, obj) == Resolved(obj)
  {
    MergeGet(defaults, req, "abortOnError");
  }

  /** With the corrected builder, the same request rejects. */
  lemma DefaultRequestRejects(verb: string, path: string, req: Value, defaults: Value, info: Value, env: Env, reply: Reply)
    requires CompleteInfo(info) && Get(info, "secretKey").Str?
    requires !HasKey(req, "abortOnError") && !HasKey(defaults, "abortOnError")
    requires !StatusOk(reply.status)
    ensures Request(verb, path, req, defaults, info, env, reply).value.Failed?
  {
    ErrorStatusRejects(verb, path, req, defaults, info, env, reply);
  }

  /** A caller's header replaces a built one of the same name, even the
      signed `Authorization`. */
  lemma CallerHeaderWins(verb: string, path: string, merged: Value, info: Value, env: Env)
    requires CompleteInfo(info) && Get(info, "secretKey").Str?
    requires HasKey(Get(merged, "headers"), "Authorization")
    ensures Prepare(verb, path, merged, info, env).value.options.headers["Authorization"] ==
      Get(Get(merged, "headers"), "Authorization")
  {
  }

  /** The default content type is looked up by its exact spelling, so a
      caller's lower-case `content-type` does not stop it being added. */
  lemma LowerCaseTypeKeepsDefault(verb: string, path: string, merged: Value, info: Value, env: Env)
    requires CompleteInfo(info) && Get(info, "secretKey").Str?
    requires !Nullish(Get(merged, "body"))
    requires HasKey(Get(merged, "headers"), "content-type") && !HasKey(Get(merged, "headers"), "Content-Type")
    ensures var h := Prepare(verb, path, merged, info, env).value.options.headers;
      && "content-type" in h && h["content-type"] == Get(Get(merged, "headers"), "content-type")
      && h["Content-Type"] == Str(JSON_TYPE)
  {
    var o := BuildAuthCore(info, OptionsOf(merged), env.sig).value;
    NoContentType(env.sig, o.headers);
    TypedOverLowerCase(o.headers, Get(merged, "headers"));
  }

  /** Neither the base headers nor the options name `Content-Type`. */
  lemma NoContentType(sig: Signature, r: Headers)
    requires Keeps(BaseHeaders(sig), r)
    ensures "Content-Type" !in r
  {
    assert "Content-Type" !in BaseHeaders(sig);
    assert !OptionHeader("Content-Type");
  }

  lemma TypedOverLowerCase(h: Headers, extra: Value)
    requires "Content-Type" !in h
    requires HasKey(extra, "content-type") && !HasKey(extra, "Content-Type")
    ensures var r := ContentTyped(WithHeaders(h, extra));
      "content-type" in r && r["content-type"] == Get(extra, "content-type") && r["Content-Type"] == Str(JSON_TYPE)
  {
    assert "content-type" != "Content-Type";
  }
}
