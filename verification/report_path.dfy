/** `Report.post` in client/Report.js: the endpoint path of a report
    request is put under '/cdn/report/', and the request is a POST whose
    query and body default to empty objects. */
module ReportPath {
  import opened Wrappers
  import opened Strings
  import opened JsValues
  import Auth

  const PREFIX: string := "/cdn/report/"

  /** The path for an endpoint given as a string: kept when it is already
      under the prefix, else its leading slashes are dropped and the prefix
      put in front. */
  function Normalise(p: string): (r: string)
    ensures StartsWith(r, PREFIX)
    ensures StartsWith(p, PREFIX) ==> r == p
    ensures !StartsWith(p, PREFIX) ==> r == PREFIX + TrimLeadingSlashes(p)
  {
    if StartsWith(p, PREFIX) then p else PREFIX + TrimLeadingSlashes(p)
  }

  /** Normalising a normalised path changes nothing. */
  lemma NormaliseIdempotent(p: string)
    ensures Normalise(Normalise(p)) == Normalise(p)
  {
  }

  /** Leading slashes in front of a name that does not begin with one are
      all dropped. */
  lemma {:induction false} TrimSlashes(name: string, k: nat)
    requires |name| == 0 || name[0] != '/'
    ensures TrimLeadingSlashes(Slashes(k) + name) == name
    decreases k
  {
    if k == 0 {
      assert Slashes(0) + name == name;
    } else {
      var rest := Slashes(k - 1) + name;
      assert Slashes(k) + name == "/" + rest;
      assert ("/" + rest)[1..] == rest;
      TrimSlashes(name, k - 1);
      assert TrimLeadingSlashes("/" + rest) == TrimLeadingSlashes(rest);
    }
  }

  /** Any number of leading slashes before an endpoint name gives the same
      path, unless a single slash turns the name into one under the
      prefix. */
  lemma SlashesIgnored(name: string, k: nat)
    requires |name| == 0 || name[0] != '/'
    requires !StartsWith(name, "cdn/report/")
    ensures Normalise(Slashes(k) + name) == PREFIX + name
  {
    TrimSlashes(name, k);
    NotUnderPrefix(name, k);
  }

  /** A name led by slashes is under the prefix only when one slash turns
      it into '/cdn/report/…'. */
  lemma NotUnderPrefix(name: string, k: nat)
    requires |name| == 0 || name[0] != '/'
    requires !StartsWith(name, "cdn/report/")
    ensures !StartsWith(Slashes(k) + name, PREFIX)
  {
    var s := Slashes(k) + name;
    if k == 0 {
      assert s == name;
      if |s| >= |PREFIX| {
        assert s[..|PREFIX|][0] == s[0] != PREFIX[0];
      }
    } else if k == 1 {
      if |s| >= |PREFIX| {
        assert s[..|PREFIX|][1..] == name[..11];
        assert PREFIX[1..] == "cdn/report/";
      }
    } else if |s| >= |PREFIX| {
      assert s[..|PREFIX|][1] == s[1] == '/';
      assert PREFIX[1] == 'c';
    }
  }

  /** The same name with and without a leading slash can give different
      paths: a name spelt from 'cdn/report/' on is doubled, its
      slash-led form is kept. */
  lemma OneSlashMatters()
    ensures Normalise("cdn/report/vol") == "/cdn/report/cdn/report/vol"
    ensures Normalise("/cdn/report/vol") == "/cdn/report/vol"
  {
    assert !StartsWith("cdn/report/vol", PREFIX);
    assert StartsWith("/cdn/report/vol", PREFIX);
  }

  /** `k` slashes. */
  function Slashes(k: nat): (r: string)
    ensures |r| == k && forall i | 0 <= i < k :: r[i] == '/'
  {
    if k == 0 then "" else "/" + Slashes(k - 1)
  }

  /** Without the trailing slash the prefix is not recognised, so the
      segment is doubled. */
  lemma PrefixWithoutSlashDoubles()
    ensures Normalise("/cdn/report") == "/cdn/report/cdn/report"
  {
    assert |"/cdn/report"| < |PREFIX|;
    assert "/cdn/report" == Slashes(1) + "cdn/report";
    TrimSlashes("cdn/report", 1);
  }

  /** A destructuring default: `{}` in place of undefined, and only of
      undefined. */
  function OrEmpty(v: Value): Value {
    if v.Undefined? then Obj([]) else v
  }

  /** `post(endpointPath, { query = {}, body = {} } = {}, reqOptions)`: the
      path, and the request options with the query and the body laid over
      the caller's options. `query` and `body` are the fields of the second
      argument, undefined when it leaves them out. The endpoint must be
      truthy; one that is not a string has no `startsWith`. */
  function Post(endpoint: Value, query: Value, body: Value, reqOptions: Value): (r: Result<(string, Value)>)
    ensures !Truthy(endpoint) ==> r == Err("endpointPath is required")
    ensures r.Ok? <==> Truthy(endpoint) && endpoint.Str?
    ensures r.Ok? ==> r.value.0 == Normalise(endpoint.s) && StartsWith(r.value.0, PREFIX)
    ensures r.Ok? ==> Get(r.value.1, "query") == (if query.Undefined? then Obj([]) else query)
    ensures r.Ok? ==> Get(r.value.1, "body") == (if body.Undefined? then Obj([]) else body)
    ensures r.Ok? ==> forall k | k != "query" && k != "body" :: Get(r.value.1, k) == Get(reqOptions, k)
  {
    if !Truthy(endpoint) then Err("endpointPath is required")
    else if !endpoint.Str? then Err("endpointPath.startsWith is not a function")
    else
      var base := if reqOptions.Obj? then reqOptions.entries else [];
      var req := Obj(base + [("query", OrEmpty(query)), ("body", OrEmpty(body))]);
      var n := |req.entries|;
      assert req.entries[n - 1] == ("body", OrEmpty(body));
      assert req.entries[..n - 1][n - 2] == ("query", OrEmpty(query));
      assert forall k | k != "query" && k != "body" :: Get(req, k) == Get(Obj(base), k) by {
        forall k | k != "query" && k != "body"
          ensures Get(req, k) == Get(Obj(base), k)
        {
          assert req.entries[..n - 1][..n - 2] == base;
        }
      }
      Ok((Normalise(endpoint.s), req))
  }

  /** The default body is an empty object, which is not nullish: a report
      request that leaves the body out, or passes it as undefined, carries a
      JSON body and a content type. */
  lemma ReportAlwaysSendsBody(name: string, reqOptions: Value, info: Value, env: Auth.Env)
    requires name != ""
    requires Auth.CompleteInfo(info) && Get(info, "secretKey").Str?
    ensures var (p, req) := Post(Str(name), Undefined, Undefined, reqOptions).value;
      var call := Auth.Prepare("POST", p, Auth.Merge(Obj([]), req), info, env).value;
      call.body.Some? && "Content-Type" in call.options.headers
  {
    var (p, req) := Post(Str(name), Undefined, Undefined, reqOptions).value;
    Auth.MergeGet(Obj([]), req, "body");
    var n := |req.entries|;
    assert req.entries[n - 1].0 == "body";
  }
}
