/** The command line of test/integration-test-client.js: `parseArgs`, the
    credential lookup of `loadServerInfo`, and the exit code computed from
    the probes. Reading the credential file, the environment and the probe
    results are inputs. */
module CliArgs {
  import opened Wrappers
  import opened Strings
  import opened JsValues
  import Auth

  /** A named argument: the token after it, or `true` when none was taken. */
  datatype Arg = Text(s: string) | Set

  /** The parsed command line: the positional tokens (`args._`) and the
      named arguments. */
  datatype Args = Args(positional: seq<string>, named: map<string, Arg>)

  /** A token that can be taken as a flag's value: non-empty and not itself
      a flag. */
  predicate IsValue(t: string) {
    t != "" && !StartsWith(t, "--")
  }

  /** What the parser can produce: positionals never look like flags, and
      a bound value is always a value token. */
  predicate WellFormed(a: Args) {
    && (forall i | 0 <= i < |a.positional| :: !StartsWith(a.positional[i], "--"))
    && (forall k | k in a.named && a.named[k].Text? :: IsValue(a.named[k].s))
  }

  /** The loop of `parseArgs` from some token on, over the arguments parsed
      so far. */
  function Parse(tokens: seq<string>, acc: Args): (r: Args)
    ensures WellFormed(acc) ==> WellFormed(r)
    ensures |acc.positional| <= |r.positional| <= |acc.positional| + |tokens|
    ensures r.positional[..|acc.positional|] == acc.positional
    decreases |tokens|
  {
    if |tokens| == 0 then acc
    else
      var a := tokens[0];
      if !StartsWith(a, "--") then
        Parse(tokens[1..], acc.(positional := acc.positional + [a]))
      else if |tokens| > 1 && IsValue(tokens[1]) then
        Parse(tokens[2..], acc.(named := acc.named[a[2..] := Text(tokens[1])]))
      else
        Parse(tokens[1..], acc.(named := acc.named[a[2..] := Set]))
  }

  /** `parseArgs(argv)`: the first two entries (the interpreter and the
      script) are skipped. */
  function ParseArgs(argv: seq<string>): (r: Args)
    ensures WellFormed(r)
    ensures |r.positional| <= if |argv| <= 2 then 0 else |argv| - 2
  {
    if |argv| <= 2 then Args([], map[]) else Parse(argv[2..], Args([], map[]))
  }

  /** The tokens for some `--key value` pairs, in order. */
  function FlagTokens(pairs: seq<(string, string)>): seq<string> {
    if |pairs| == 0 then [] else ["--" + pairs[0].0, pairs[0].1] + FlagTokens(pairs[1..])
  }

  /** The pairs bound in order, a later pair overwriting an earlier one
      with the same key. */
  function Bind(m: map<string, Arg>, pairs: seq<(string, string)>): map<string, Arg>
    decreases |pairs|
  {
    if |pairs| == 0 then m else Bind(m[pairs[0].0 := Text(pairs[0].1)], pairs[1..])
  }

  /** Tokens that do not look like flags are collected in order. */
  lemma {:induction false} ParsePositionals(pos: seq<string>, rest: seq<string>, acc: Args)
    requires forall i | 0 <= i < |pos| :: !StartsWith(pos[i], "--")
    ensures Parse(pos + rest, acc) == Parse(rest, acc.(positional := acc.positional + pos))
    decreases |pos|
  {
    if |pos| == 0 {
      assert pos + rest == rest;
      assert acc.positional + pos == acc.positional;
    } else {
      assert (pos + rest)[0] == pos[0];
      assert (pos + rest)[1..] == pos[1..] + rest;
      ParsePositionals(pos[1..], rest, acc.(positional := acc.positional + [pos[0]]));
      assert acc.positional + [pos[0]] + pos[1..] == acc.positional + pos;
    }
  }

  /** Each `--key value` pair binds the value and consumes it. */
  lemma {:induction false} ParseFlags(pairs: seq<(string, string)>, acc: Args)
    requires forall i | 0 <= i < |pairs| :: IsValue(pairs[i].1)
    ensures Parse(FlagTokens(pairs), acc) == acc.(named := Bind(acc.named, pairs))
    decreases |pairs|
  {
    if |pairs| > 0 {
      var (k, v) := pairs[0];
      var ts := FlagTokens(pairs);
      assert ts[0] == "--" + k && ts[1] == v;
      assert StartsWith(ts[0], "--");
      assert ts[0][2..] == k;
      assert ts[2..] == FlagTokens(pairs[1..]);
      ParseFlags(pairs[1..], acc.(named := acc.named[k := Text(v)]));
    }
  }

  /** Reading back a command line of positionals followed by flag pairs
      gives those positionals and the pairs, later keys winning. */
  lemma ParseArgsRoundTrip(a0: string, a1: string, pos: seq<string>, pairs: seq<(string, string)>)
    requires forall i | 0 <= i < |pos| :: !StartsWith(pos[i], "--")
    requires forall i | 0 <= i < |pairs| :: IsValue(pairs[i].1)
    ensures ParseArgs([a0, a1] + pos + FlagTokens(pairs)) == Args(pos, Bind(map[], pairs))
  {
    var t := pos + FlagTokens(pairs);
    var argv := [a0, a1] + pos + FlagTokens(pairs);
    assert argv == [a0, a1] + t;
    assert argv[2..] == t;
    ParsePositionals(pos, FlagTokens(pairs), Args([], map[]));
    assert Args([], map[]).(positional := [] + pos) == Args(pos, map[]);
    ParseFlags(pairs, Args(pos, map[]));
  }

  /** A flag with nothing usable after it is bound to `true`, and the token
      after it, if any, is read on its own. */
  lemma FlagWithoutValue(key: string, rest: seq<string>, acc: Args)
    requires |rest| == 0 || !IsValue(rest[0])
    ensures Parse(["--" + key] + rest, acc) == Parse(rest, acc.(named := acc.named[key := Set]))
  {
    var ts := ["--" + key] + rest;
    assert StartsWith(ts[0], "--") && ts[0][2..] == key;
    assert ts[1..] == rest;
  }

  /** The value a named argument stands for: its text, or `true`. */
  function ArgValue(a: Arg): Value {
    match a
    case Text(s) => Str(s)
    case Set => Bool(true)
  }

  /** `args[key]`. */
  function Named(args: Args, key: string): Value {
    if key in args.named then ArgValue(args.named[key]) else Undefined
  }

  /** `args.key || env.VAR`, the environment given as a map. */
  function Either(args: Args, key: string, env: map<string, string>, name: string): (r: Value)
    ensures Truthy(Named(args, key)) ==> r == Named(args, key)
    ensures !Truthy(Named(args, key)) ==> r == if name in env then Str(env[name]) else Undefined
  {
    var a := Named(args, key);
    if Truthy(a) then a else if name in env then Str(env[name]) else Undefined
  }

  const MISSING_CREDENTIALS: string :=
    "Missing credentials. Provide --cred <file.json> OR env CDNPRO_HOST, CDNPRO_USER, CDNPRO_SECRETKEY (or --host/--user/--secretKey)."
  /** `path.resolve` refuses a non-string argument (Node's message,
      shortened). */
  const PATH_NOT_STRING: string := "The \"paths[1]\" argument must be of type string"
  /** Reading `host` of a file holding `null`. */
  const NULL_CREDENTIALS: string := "Cannot read properties of null (reading 'host')"

  /** The server information `loadServerInfo` returns. */
  function Info(host: Value, user: Value, secretKey: Value): Value {
    Obj([("host", host), ("user", user), ("secretKey", secretKey)])
  }

  /** `loadServerInfo(args)`. `resolved` is the absolute path of the file
      named by `--cred`, `file` what reading and parsing it gave, and `env`
      the process environment. */
  function LoadServerInfo(args: Args, resolved: string, file: Result<Value>, env: map<string, string>): (r: Result<Value>)
    ensures "cred" in args.named && args.named["cred"].Set? ==> r == Err(PATH_NOT_STRING)
    ensures "cred" in args.named && args.named["cred"].Text? && file.Ok? && Auth.CompleteInfo(file.value) ==> r == file
    ensures r.Ok? ==> Auth.CompleteInfo(r.value)
    ensures !("cred" in args.named) ==>
      (r.Ok? <==> && Truthy(Either(args, "host", env, "CDNPRO_HOST"))
                  && Truthy(Either(args, "user", env, "CDNPRO_USER"))
                  && Truthy(Either(args, "secretKey", env, "CDNPRO_SECRETKEY")))
    ensures !("cred" in args.named) && r.Err? ==> r.message == MISSING_CREDENTIALS
  {
    if "cred" in args.named then
      match args.named["cred"]
      case Set => Err(PATH_NOT_STRING)
      case Text(_) =>
        match file
        case Err(m) => Err(m)
        case Ok(json) =>
          if json.Null? then Err(NULL_CREDENTIALS)
          else if Auth.CompleteInfo(json) then Ok(json)
          else if Auth.CompleteInfo(Get(json, "cdnPro")) then Ok(Get(json, "cdnPro"))
          else Err("Credential file " + resolved + " must be {host,user,secretKey} or {cdnPro:{host,user,secretKey}}")
    else
      var host := Either(args, "host", env, "CDNPRO_HOST");
      var user := Either(args, "user", env, "CDNPRO_USER");
      var key := Either(args, "secretKey", env, "CDNPRO_SECRETKEY");
      if Truthy(host) && Truthy(user) && Truthy(key) then
        var info := Info(host, user, key);
        InfoFields(host, user, key);
        Ok(info)
      else Err(MISSING_CREDENTIALS)
  }

  /** The three fields read back from the object built from them. */
  lemma InfoFields(host: Value, user: Value, secretKey: Value)
    ensures Get(Info(host, user, secretKey), "host") == host
    ensures Get(Info(host, user, secretKey), "user") == user
    ensures Get(Info(host, user, secretKey), "secretKey") == secretKey
  {
    var es := Info(host, user, secretKey).entries;
    assert es[..2] == [("host", host), ("user", user)];
    assert es[..2][..1] == [("host", host)];
    assert Get(Obj(es[..2][..1]), "host") == host;
    assert "user" != "host" && "secretKey" != "host" && "secretKey" != "user";
    assert Get(Obj(es[..2]), "host") == host;
  }

  /** A flag wins over the environment, field by field. */
  lemma FlagBeforeEnvironment(args: Args, env: map<string, string>, v: string)
    requires "cred" !in args.named
    requires args.named == map["host" := Text(v)] && IsValue(v)
    requires "CDNPRO_USER" in env && env["CDNPRO_USER"] != ""
    requires "CDNPRO_SECRETKEY" in env && env["CDNPRO_SECRETKEY"] != ""
    ensures LoadServerInfo(args, "", Err(""), env) ==
      Ok(Info(Str(v), Str(env["CDNPRO_USER"]), Str(env["CDNPRO_SECRETKEY"])))
  {
    assert Named(args, "host") == Str(v);
    assert "user" !in args.named && "secretKey" !in args.named;
    assert Named(args, "user") == Undefined && Named(args, "secretKey") == Undefined;
  }

  /** `--secretKey` with nothing after it yields the secret key `true`,
      which passes the credential check but cannot key the signature, so
      the first request is refused. */
  lemma BareSecretKeyFlag(args: Args, env: map<string, string>, h: string, u: string, sig: Auth.Signature)
    requires "cred" !in args.named
    requires args.named == map["host" := Text(h), "user" := Text(u), "secretKey" := Set] && IsValue(h) && IsValue(u)
    ensures LoadServerInfo(args, "", Err(""), env) == Ok(Info(Str(h), Str(u), Bool(true)))
    ensures Auth.BuildAuthCore(Info(Str(h), Str(u), Bool(true)), Auth.OptionsOf(Obj([])), sig) == Err(Auth.KEY_NOT_STRING)
  {
    InfoFields(Str(h), Str(u), Bool(true));
  }

  /** How one probe ended: it returned, with the status code when there is
      a numeric one, or it threw. */
  datatype Probe = Returned(status: Option<int>) | Threw

  /** A returned probe is ok when its status is in [200, 400) or it has no
      numeric status; a thrown one never is. */
  predicate ProbeOk(p: Probe) {
    match p
    case Returned(s) => s.None? || 200 <= s.value < 400
    case Threw => false
  }

  /** `failed.length ? 2 : 0` over the recorded probes. */
  function ExitCode(probes: seq<Probe>): (code: int)
    ensures code == 0 || code == 2
    ensures code == 2 <==> exists i | 0 <= i < |probes| :: !ProbeOk(probes[i])
    decreases |probes|
  {
    if |probes| == 0 then 0
    else if !ProbeOk(probes[0]) then 2
    else
      var c := ExitCode(probes[1..]);
      assert forall i | 1 <= i < |probes| :: probes[i] == probes[1..][i - 1];
      c
  }

  /** The process's exit code: 0 after the help text, 1 when the credentials
      cannot be loaded, otherwise from the probes. */
  function Run(argv: seq<string>, resolved: string, file: Result<Value>, env: map<string, string>, probes: seq<Probe>): (code: int)
    ensures "help" in ParseArgs(argv).named ==> code == 0
    ensures code == 1 <==> "help" !in ParseArgs(argv).named && LoadServerInfo(ParseArgs(argv), resolved, file, env).Err?
    ensures code == 2 ==> exists i | 0 <= i < |probes| :: !ProbeOk(probes[i])
    ensures "help" !in ParseArgs(argv).named && LoadServerInfo(ParseArgs(argv), resolved, file, env).Ok? ==>
      && (code == 2 <==> exists i | 0 <= i < |probes| :: !ProbeOk(probes[i]))
      && (code == 0 <==> forall i | 0 <= i < |probes| :: ProbeOk(probes[i]))
  {
    var args := ParseArgs(argv);
    if "help" in args.named then 0
    else if LoadServerInfo(args, resolved, file, env).Err? then 1
    else ExitCode(probes)
  }

  /** The probes run with `abortOnError: false` in their options, so a
      request answered with an error status resolves and the probe sees the
      status instead of an exception. */
  lemma ProbesSeeErrorStatus(verb: string, path: string, req: Value, info: Value, env: Auth.Env, reply: Auth.Reply)
    requires Auth.CompleteInfo(info) && Get(info, "secretKey").Str?
    requires Auth.HasKey(req, "abortOnError") && Get(req, "abortOnError") == Bool(false)
    ensures Auth.Request(verb, path, req, Obj([]), info, env, reply).Ok?
    ensures !Auth.Request(verb, path, req, Obj([]), info, env, reply).value.Failed?
  {
    Auth.ErrorStatusRejects(verb, path, req, Obj([]), info, env, reply);
  }
}
