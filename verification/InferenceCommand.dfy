/**
 `UserInference.generate_command` and what `run_inference` makes of the command: the port rewrite
 for internal services and the split into an argument list.
 */
module InferenceCommand {
  import opened Wrappers
  import opened Shlex
  import opened Template

  datatype Failure =
    | MissingInput
    | MissingDefaultConfig
    | MissingDefaultQuery
    | UnknownInferenceType
    | ProtocolNotSupported

  /** A query is a text or a list, which travels as its JSON dump. */
  datatype Query = Text(text: string) | Listing(dump: string) {
    predicate Empty() {
      match this
      case Text(t) => t == ""
      case Listing(d) => d == "[]"
    }

    function Sent(): string {
      match this
      case Text(t) => t
      case Listing(d) => d
    }
  }

  datatype RuntimeConfig = RuntimeConfig(body: string, header: string, endpoint: string, args: string)

  /** `query_input` at the top level, and per inference type where several default queries exist. */
  datatype DefaultQueries = DefaultQueries(single: Option<Query>, byType: map<string, Option<Query>>)

  datatype UserInference = UserInference(
    protocol: string,
    inferenceType: string,
    config: RuntimeConfig,
    defaults: Option<DefaultQueries>,
    supportsMultipleDefaults: bool,
    serviceName: string,
    host: string,
    exposed: bool,
    rawDeployment: bool)

  datatype Request = Request(
    modelName: string,
    input: Option<Query>,
    useDefaultQuery: bool,
    insecure: bool,
    token: string,
    caBundle: string)

  predicate Tcp(protocol: string) {
    protocol == "http" || protocol == "https"
  }

  function ChosenQuery(u: UserInference, q: Request): Result<Query, Failure> {
    if q.useDefaultQuery then
      if u.defaults.None? then Err(MissingDefaultConfig)
      else if u.supportsMultipleDefaults && u.inferenceType !in u.defaults.value.byType then Err(UnknownInferenceType)
      else
        var input := if u.supportsMultipleDefaults then u.defaults.value.byType[u.inferenceType]
            else u.defaults.value.single;
        if input.None? || input.value.Empty() then Err(MissingDefaultQuery) else Ok(input.value)
    else if q.input.None? then Err(MissingInput)
    else Ok(q.input.value)
  }

  function Body(u: UserInference, model: string, query: Query): string {
    SafeSubstitute(u.config.body, map["model_name" := model, "query_input" := query.Sent()])
  }

  function Header(u: UserInference, model: string): string {
    SafeSubstitute(u.config.header, map["model_name" := model])
  }

  function EndpointUrl(u: UserInference): Result<string, Failure> {
    var endpoint := SafeSubstitute(u.config.endpoint, map["model_name" := u.serviceName]);
    if Tcp(u.protocol) then Ok(u.protocol + "://" + u.host + "/" + endpoint)
    else if u.protocol == "grpc" then Ok(u.host + (if u.exposed then ":443" else "") + " " + endpoint)
    else Err(ProtocolNotSupported)
  }

  // ----- The port rewrite of `run_inference`, and texts that survive it

  /** `cmd.replace("localhost", "localhost:<port>")`. */
  function Rewrite(s: string, port: string): string {
    if |s| < 9 then s
    else if s[..9] == "localhost" then "localhost:" + port + Rewrite(s[9..], port)
    else [s[0]] + Rewrite(s[1..], port)
  }

  function RewriteAll(args: seq<string>, port: string): (r: seq<string>)
    ensures |r| == |args|
    ensures forall i | 0 <= i < |args| :: r[i] == Rewrite(args[i], port)
  {
    seq(|args|, i requires 0 <= i < |args| => Rewrite(args[i], port))
  }

  predicate Mentions(s: string) {
    |s| >= 9 && (s[..9] == "localhost" || Mentions(s[1..]))
  }

  predicate IsPort(port: string) {
    forall c | c in port :: '0' <= c <= '9'
  }

  lemma {:induction false} RewriteLength(s: string, port: string)
    ensures |Rewrite(s, port)| >= |s|
    ensures Mentions(s) ==> |Rewrite(s, port)| > |s|
    ensures !Mentions(s) ==> Rewrite(s, port) == s
  {
    if |s| >= 9 {
      if s[..9] == "localhost" {
        RewriteLength(s[9..], port);
      } else {
        RewriteLength(s[1..], port);
      }
    }
  }

  /** The rewrite leaves a text alone exactly when the host name does not occur in it. */
  lemma RewriteIdentity(s: string, port: string)
    ensures Rewrite(s, port) == s <==> !Mentions(s)
  {
    RewriteLength(s, port);
  }

  /** A character the host name does not contain is copied. */
  lemma RewriteOther(c: char, b: string, port: string)
    requires c !in "localhost"
    ensures Rewrite([c] + b, port) == [c] + Rewrite(b, port)
  {
    var s := [c] + b;
    assert s[1..] == b;
    if |s| >= 9 {
      assert s[..9][0] == c;
    } else {
      assert Rewrite(b, port) == b;
    }
  }

  /** The host name does not start in `a` and end after `c`. */
  lemma NotAcross(a: string, c: char, b: string)
    requires c !in "localhost" && a != ""
    ensures var s := a + [c] + b;
            |s| >= 9 && s[..9] == "localhost" ==> |a| >= 9 && a[..9] == "localhost"
  {
    var s := a + [c] + b;
    if |s| >= 9 {
      assert |a| < 9 ==> s[..9][|a|] == c;
      assert |a| >= 9 ==> s[..9] == a[..9];
    }
  }

  /** No occurrence reaches across a character the host name does not contain. */
  lemma {:induction false} RewriteAcross(a: string, c: char, b: string, port: string)
    requires c !in "localhost"
    ensures Rewrite(a + [c] + b, port) == Rewrite(a, port) + [c] + Rewrite(b, port)
  {
    var s := a + [c] + b;
    if a == "" {
      assert s == [c] + b;
      RewriteOther(c, b, port);
    } else if |a| >= 9 && a[..9] == "localhost" {
      assert s[..9] == a[..9] && s[9..] == a[9..] + [c] + b;
      RewriteAcross(a[9..], c, b, port);
    } else {
      NotAcross(a, c, b);
      assert s[0] == a[0] && s[1..] == a[1..] + [c] + b;
      RewriteAcross(a[1..], c, b, port);
      RewriteHead(a, port);
      RewriteHead(s, port);
    }
  }

  lemma RewriteHead(a: string, port: string)
    requires a != "" && (|a| >= 9 ==> a[..9] != "localhost")
    ensures Rewrite(a, port) == [a[0]] + Rewrite(a[1..], port)
  {
  }

  lemma {:induction false} RewriteChars(s: string, port: string)
    ensures forall c | c in Rewrite(s, port) :: c in s || c in "localhost:" || c in port
    ensures s != "" ==> Rewrite(s, port) != ""
  {
    if |s| >= 9 {
      if s[..9] == "localhost" {
        RewriteChars(s[9..], port);
      } else {
        RewriteChars(s[1..], port);
      }
    }
  }

  /** `text` is split into `args`, and rewriting it rewrites each argument on its own. */
  ghost predicate Means(text: string, args: seq<string>) {
    && Split(text) == Ok(args)
    && forall port | IsPort(port) :: Split(Rewrite(text, port)) == Ok(RewriteAll(args, port))
  }

  lemma MeansNothing()
    ensures Means("", [])
  {
  }

  lemma MeansPlain(w: string)
    requires w != "" && forall c | c in w :: Plain(c)
    ensures Means(w, [w])
  {
    PlainWordExact(w);
    forall port | IsPort(port)
      ensures Split(Rewrite(w, port)) == Ok(RewriteAll([w], port))
    {
      RewriteChars(w, port);
      PlainWordExact(Rewrite(w, port));
      assert RewriteAll([w], port) == [Rewrite(w, port)];
    }
  }

  lemma MeansWrapped(t: string)
    requires '\'' !in t
    ensures Means(Wrapped(t), [t])
  {
    WrappedExact(t);
    forall port | IsPort(port)
      ensures Split(Rewrite(Wrapped(t), port)) == Ok(RewriteAll([t], port))
    {
      assert "" + ['\''] + (t + "'") == Wrapped(t) && t + ['\''] + "" == t + "'";
      RewriteAcross("", '\'', t + "'", port);
      RewriteAcross(t, '\'', "", port);
      assert Rewrite(Wrapped(t), port) == Wrapped(Rewrite(t, port));
      RewriteChars(t, port);
      WrappedExact(Rewrite(t, port));
      assert RewriteAll([t], port) == [Rewrite(t, port)];
    }
  }

  lemma MeansJoined(a: string, aArgs: seq<string>, b: string, bArgs: seq<string>)
    requires Means(a, aArgs) && Means(b, bArgs)
    ensures Means(a + " " + b, aArgs + bArgs)
  {
    SplitAtBlank(a, ' ', b);
    forall port | IsPort(port)
      ensures Split(Rewrite(a + " " + b, port)) == Ok(RewriteAll(aArgs + bArgs, port))
    {
      RewriteAcross(a, ' ', b, port);
      SplitAtBlank(Rewrite(a, port), ' ', Rewrite(b, port));
      assert RewriteAll(aArgs + bArgs, port) == RewriteAll(aArgs, port) + RewriteAll(bArgs, port);
    }
  }

  predicate PlainOrBlank(t: string) {
    forall c | c in t :: Plain(c) || c == ' '
  }

  function WordLength(t: string): (n: nat)
    ensures n <= |t| && ' ' !in t[..n]
    ensures n < |t| ==> t[n] == ' '
  {
    if t == "" || t[0] == ' ' then 0
    else
      var n := 1 + WordLength(t[1..]);
      assert t[..n] == [t[0]] + t[1..][..n - 1];
      n
  }

  /** The words of a text cut at its blanks, without any lexing. */
  function Fields(t: string): seq<string>
    decreases |t|
  {
    if t == "" then []
    else if t[0] == ' ' then Fields(t[1..])
    else [t[..WordLength(t)]] + Fields(t[WordLength(t)..])
  }

  lemma {:induction false} MeansFields(t: string)
    requires PlainOrBlank(t)
    ensures Means(t, Fields(t))
    decreases |t|
  {
    if t == "" {
      MeansNothing();
    } else if t[0] == ' ' {
      MeansNothing();
      MeansFields(t[1..]);
      MeansJoined("", [], t[1..], Fields(t[1..]));
      assert "" + " " + t[1..] == t && [] + Fields(t[1..]) == Fields(t);
    } else {
      var n := WordLength(t);
      assert forall c | c in t[..n] :: c in t && c != ' ';
      MeansPlain(t[..n]);
      if n == |t| {
        assert t[..n] == t && Fields(t[n..]) == [] && [t] + [] == [t];
      } else {
        MeansFields(t[n + 1..]);
        MeansJoined(t[..n], [t[..n]], t[n + 1..], Fields(t[n + 1..]));
        assert t[..n] + " " + t[n + 1..] == t;
        assert t[n..][1..] == t[n + 1..];
      }
    }
  }

  // ----- The command

  /** The argument list the caller means: what an argument vector API would have been given. */
  function Intended(u: UserInference, q: Request, query: Query, url: string): seq<string> {
    ExecArgs(u)
    + ["-d", Body(u, q.modelName, query), "-H", Header(u, q.modelName)]
    + (if q.token != "" then ["-H", "Authorization: Bearer " + q.token] else [])
    + (if !q.insecure && q.caBundle != "" then ["--cacert", q.caBundle] else ["--insecure"])
    + (if u.config.args != "" then Fields(u.config.args) else [])
    + Fields(url)
  }

  /** What a caller can check beforehand: no single quote where the command puts quotes, and nothing
      special in the parts it leaves bare. */
  predicate ShellSafe(u: UserInference, q: Request, query: Query, url: string) {
    && '\'' !in Body(u, q.modelName, query)
    && '\'' !in Header(u, q.modelName)
    && '\'' !in q.token
    && (forall c | c in q.caBundle :: Plain(c))
    && PlainOrBlank(u.config.args)
    && PlainOrBlank(url)
  }

  /** Tracks what a command under construction means, as long as its parts are shell safe. */
  ghost predicate Tracks(safe: bool, cmd: string, args: seq<string>) {
    safe ==> Means(cmd, args)
  }

  lemma AddBare(safe: bool, cmd: string, args: seq<string>, t: string)
    requires Tracks(safe, cmd, args) && (safe ==> PlainOrBlank(t))
    ensures Tracks(safe, cmd + " " + t, args + Fields(t))
  {
    if safe {
      MeansFields(t);
      MeansJoined(cmd, args, t, Fields(t));
    }
  }

  lemma AddWord(safe: bool, cmd: string, args: seq<string>, w: string)
    requires Tracks(safe, cmd, args)
    requires w != "" && (safe ==> forall c | c in w :: Plain(c))
    ensures Tracks(safe, cmd + " " + w, args + [w])
  {
    if safe {
      MeansPlain(w);
      MeansJoined(cmd, args, w, [w]);
    }
  }

  lemma AddBlank(safe: bool, cmd: string, args: seq<string>)
    requires Tracks(safe, cmd, args)
    ensures Tracks(safe, cmd + " ", args)
  {
    if safe {
      MeansNothing();
      MeansJoined(cmd, args, "", []);
      assert cmd + " " + "" == cmd + " " && args + [] == args;
    }
  }

  lemma AddQuoted(safe: bool, cmd: string, args: seq<string>, option: string, t: string)
    requires Tracks(safe, cmd, args) && (safe ==> '\'' !in t)
    requires option != "" && forall c | c in option :: Plain(c)
    ensures Tracks(safe, cmd + " " + option + " " + Wrapped(t), args + [option, t])
  {
    if safe {
      MeansPlain(option);
      MeansJoined(cmd, args, option, [option]);
      MeansWrapped(t);
      MeansJoined(cmd + " " + option, args + [option], Wrapped(t), [t]);
      assert args + [option] + [t] == args + [option, t];
    }
  }

  function Exec(u: UserInference): string {
    if Tcp(u.protocol) then "curl -i -s "
    else if u.rawDeployment then "grpcurl -connect-timeout 10 " + " --plaintext "
    else "grpcurl -connect-timeout 10 "
  }

  function ExecArgs(u: UserInference): seq<string> {
    if Tcp(u.protocol) then ["curl", "-i", "-s"]
    else ["grpcurl", "-connect-timeout", "10"] + if u.rawDeployment then ["--plaintext"] else []
  }

  lemma CurlMeans(safe: bool)
    ensures Tracks(safe, "curl -i -s ", ["curl", "-i", "-s"])
  {
    TwoOptions(safe, "curl", "-i", "-s");
    assert "curl" + " " + "-i" + " " + "-s" + " " == "curl -i -s ";
  }

  lemma GrpcurlText()
    ensures "grpcurl" + " " + "-connect-timeout" + " " + "10" + " " == "grpcurl -connect-timeout 10 "
  {
  }

  lemma GrpcurlMeans(safe: bool)
    ensures Tracks(safe, "grpcurl -connect-timeout 10 ", ["grpcurl", "-connect-timeout", "10"])
  {
    GrpcurlText();
    TwoOptions(safe, "grpcurl", "-connect-timeout", "10");
  }

  lemma PlaintextMeans(safe: bool, cmd: string, args: seq<string>)
    requires Tracks(safe, cmd, args)
    ensures Tracks(safe, cmd + " --plaintext ", args + ["--plaintext"])
  {
    AddWord(safe, cmd, args, "--plaintext");
    AddBlank(safe, cmd + " " + "--plaintext", args + ["--plaintext"]);
    assert cmd + " " + "--plaintext" + " " == cmd + " --plaintext ";
  }

  lemma ExecMeans(safe: bool, u: UserInference)
    ensures Tracks(safe, Exec(u), ExecArgs(u))
  {
    if Tcp(u.protocol) {
      CurlMeans(safe);
    } else {
      GrpcurlMeans(safe);
      var args := ["grpcurl", "-connect-timeout", "10"];
      if u.rawDeployment {
        PlaintextMeans(safe, "grpcurl -connect-timeout 10 ", args);
      } else {
        assert args + [] == args;
      }
    }
  }

  lemma AuthText()
    ensures "-H" + " '" + "Authorization: Bearer " == "-H 'Authorization: Bearer "
  {
  }

  lemma QuotedOption(cmd: string, option: string, prefix: string, t: string)
    ensures cmd + option + " " + Wrapped(prefix + t) == cmd + (option + " '" + prefix) + t + "'"
  {
    assert cmd + option + " " + Wrapped(prefix + t) == cmd + option + " '" + prefix + t + "'";
  }

  lemma AuthMeans(safe: bool, cmd: string, args: seq<string>, token: string)
    requires Tracks(safe, cmd, args) && (safe ==> '\'' !in token)
    ensures Tracks(safe, if token != "" then cmd + " " + "-H 'Authorization: Bearer " + token + "'" else cmd,
                   args + if token != "" then ["-H", "Authorization: Bearer " + token] else [])
  {
    if token != "" {
      AddQuoted(safe, cmd, args, "-H", "Authorization: Bearer " + token);
      AuthText();
      QuotedOption(cmd + " ", "-H", "Authorization: Bearer ", token);
    } else {
      assert args + [] == args;
    }
  }

  lemma TlsMeans(safe: bool, cmd: string, args: seq<string>, ca: string)
    requires Tracks(safe, cmd, args) && (safe ==> forall c | c in ca :: Plain(c))
    ensures Tracks(safe, if ca != "" then cmd + " --cacert " + ca + " " else cmd + " --insecure",
                   args + if ca != "" then ["--cacert", ca] else ["--insecure"])
  {
    if ca != "" {
      AddWord(safe, cmd, args, "--cacert");
      AddWord(safe, cmd + " " + "--cacert", args + ["--cacert"], ca);
      AddBlank(safe, cmd + " " + "--cacert" + " " + ca, args + ["--cacert"] + [ca]);
      assert cmd + " " + "--cacert" + " " + ca + " " == cmd + " --cacert " + ca + " ";
      assert args + ["--cacert"] + [ca] == args + ["--cacert", ca];
    } else {
      AddWord(safe, cmd, args, "--insecure");
      assert cmd + " " + "--insecure" == cmd + " --insecure";
    }
  }

  lemma ExtraMeans(safe: bool, cmd: string, args: seq<string>, extra: string)
    requires Tracks(safe, cmd, args) && (safe ==> PlainOrBlank(extra))
    ensures Tracks(safe, if extra != "" then cmd + " " + extra + " " else cmd,
                   args + if extra != "" then Fields(extra) else [])
  {
    if extra != "" {
      AddBare(safe, cmd, args, extra);
      AddBlank(safe, cmd + " " + extra, args + Fields(extra));
    } else {
      assert args + [] == args;
    }
  }

  /** The text built so far when the request part is `head`: header, TLS, extra and URL parts follow. */
  function Finished(u: UserInference, q: Request, url: string, head: string): string {
    var authorized := if q.token != "" then head + " " + "-H 'Authorization: Bearer " + q.token + "'" else head;
    var secured := if !q.insecure && q.caBundle != "" then authorized + " --cacert " + q.caBundle + " "
                   else authorized + " --insecure";
    var extended := if u.config.args != "" then secured + " " + u.config.args + " " else secured;
    extended + " " + url
  }

  function CommandText(u: UserInference, q: Request, query: Query, url: string): string {
    Finished(u, q, url,
             Exec(u) + " -d '" + Body(u, q.modelName, query) + "'  -H " + Wrapped(Header(u, q.modelName)))
  }

  lemma CommandMeans(u: UserInference, q: Request, query: Query, url: string)
    requires ShellSafe(u, q, query, url)
    ensures Means(CommandText(u, q, query, url), Intended(u, q, query, url))
  {
    var body, header := Body(u, q.modelName, query), Header(u, q.modelName);
    ExecMeans(true, u);
    var cmd, args := Exec(u) + " -d '" + body + "'  -H " + Wrapped(header), ExecArgs(u) + ["-d", body, "-H", header];
    RequestMeans(true, Exec(u), ExecArgs(u), body, header);
    AuthMeans(true, cmd, args, q.token);
    cmd := if q.token != "" then cmd + " " + "-H 'Authorization: Bearer " + q.token + "'" else cmd;
    args := args + if q.token != "" then ["-H", "Authorization: Bearer " + q.token] else [];
    var ca := if q.insecure then "" else q.caBundle;
    TlsMeans(true, cmd, args, ca);
    cmd := if ca != "" then cmd + " --cacert " + ca + " " else cmd + " --insecure";
    args := args + if ca != "" then ["--cacert", ca] else ["--insecure"];
    ExtraMeans(true, cmd, args, u.config.args);
    cmd := if u.config.args != "" then cmd + " " + u.config.args + " " else cmd;
    args := args + if u.config.args != "" then Fields(u.config.args) else [];
    AddBare(true, cmd, args, url);
  }

  method GenerateCommand(u: UserInference, q: Request) returns (r: Result<string, Failure>)
    ensures ChosenQuery(u, q).Err? ==> r == Err(ChosenQuery(u, q).error)
    ensures ChosenQuery(u, q).Ok? ==> (r.Ok? <==> EndpointUrl(u).Ok?) && (r.Err? ==> r == Err(ProtocolNotSupported))
    ensures r.Ok? ==>
              var query, url := ChosenQuery(u, q).value, EndpointUrl(u).value;
              && r.value == CommandText(u, q, query, url)
              && (ShellSafe(u, q, query, url) ==> Means(r.value, Intended(u, q, query, url)))
  {
    var chosen := ChosenQuery(u, q);
    if chosen.Err? {
      return Err(chosen.error);
    }
    var body := Body(u, q.modelName, chosen.value);
    var header := Wrapped(Header(u, q.modelName));
    var endpoint := EndpointUrl(u);
    if endpoint.Err? {
      return Err(endpoint.error);
    }
    var url := endpoint.value;

    var exec;
    if Tcp(u.protocol) {
      exec := "curl -i -s ";
    } else {
      exec := "grpcurl -connect-timeout 10 ";
      if u.rawDeployment {
        exec := exec + " --plaintext ";
      }
    }
    var cmd := exec + " -d '" + body + "'  -H " + header;
    if q.token != "" {
      cmd := cmd + " " + "-H 'Authorization: Bearer " + q.token + "'";
    }
    if q.insecure {
      cmd := cmd + " --insecure";
    } else if q.caBundle != "" {
      cmd := cmd + " --cacert " + q.caBundle + " ";
    } else {
      cmd := cmd + " --insecure";
    }
    if u.config.args != "" {
      cmd := cmd + " " + u.config.args + " ";
    }
    cmd := cmd + " " + url;
    if ShellSafe(u, q, chosen.value, url) {
      CommandMeans(u, q, chosen.value, url);
    }
    return Ok(cmd);
  }

  lemma TwoOptions(safe: bool, program: string, a: string, b: string)
    requires forall w | w in [program, a, b] :: w != "" && forall c | c in w :: Plain(c)
    ensures Tracks(safe, program + " " + a + " " + b + " ", [program, a, b])
  {
    assert program in [program, a, b] && a in [program, a, b] && b in [program, a, b];
    MeansPlain(program);
    AddWord(safe, program, [program], a);
    AddWord(safe, program + " " + a, [program] + [a], b);
    AddBlank(safe, program + " " + a + " " + b, [program] + [a] + [b]);
    assert [program] + [a] + [b] == [program, a, b];
  }

  lemma RequestMeans(safe: bool, exec: string, args: seq<string>, body: string, header: string)
    requires Tracks(safe, exec, args)
    requires safe ==> '\'' !in body && '\'' !in header
    ensures Tracks(safe, exec + " -d '" + body + "'  -H " + Wrapped(header), args + ["-d", body, "-H", header])
  {
    AddQuoted(safe, exec, args, "-d", body);
    var data := exec + " " + "-d" + " " + Wrapped(body);
    AddBlank(safe, data, args + ["-d", body]);
    AddQuoted(safe, data + " ", args + ["-d", body], "-H", header);
    assert data + " " + " " + "-H" + " " + Wrapped(header) == exec + " -d '" + body + "'  -H " + Wrapped(header);
    assert args + ["-d", body] + ["-H", header] == args + ["-d", body, "-H", header];
  }

  /** The condition on body and header is met whenever neither templates nor values hold a single quote. */
  lemma QuoteFreeInputs(u: UserInference, q: Request, query: Query)
    requires '\'' !in u.config.body && '\'' !in u.config.header
    requires '\'' !in q.modelName && '\'' !in query.Sent()
    ensures '\'' !in Body(u, q.modelName, query) && '\'' !in Header(u, q.modelName)
  {
    SubstituteAddsNothing(u.config.body, map["model_name" := q.modelName, "query_input" := query.Sent()], '\'');
    SubstituteAddsNothing(u.config.header, map["model_name" := q.modelName], '\'');
  }

  /** `run_inference` up to the call: internal services are reached through a forwarded local port. */
  method ArgumentVector(u: UserInference, q: Request, port: string)
    returns (r: Result<Result<seq<string>, LexError>, Failure>)
    requires IsPort(port)
    ensures r.Ok? <==> ChosenQuery(u, q).Ok? && EndpointUrl(u).Ok?
    ensures r.Ok? ==>
              var query, url := ChosenQuery(u, q).value, EndpointUrl(u).value;
              ShellSafe(u, q, query, url) ==>
                var args := Intended(u, q, query, url);
                r.value == Ok(if u.exposed then args else RewriteAll(args, port))
  {
    var cmd := GenerateCommand(u, q);
    if cmd.Err? {
      return Err(cmd.error);
    }
    var text := cmd.value;
    if !u.exposed {
      text := Rewrite(text, port);
    }
    return Ok(Split(text));
  }

  /** Position of the request body in the intended argument list. */
  function BodyAt(u: UserInference): nat {
    |ExecArgs(u)| + 1
  }

  lemma BodyIsAt(u: UserInference, q: Request, query: Query, url: string)
    ensures BodyAt(u) < |Intended(u, q, query, url)|
    ensures Intended(u, q, query, url)[BodyAt(u)] == Body(u, q.modelName, query)
  {
  }

  /** The port rewrite is meant for the URL but covers the whole command: the body stays verbatim
      exactly when it does not mention the local host. */
  lemma ForwardedBodyExact(u: UserInference, q: Request, query: Query, url: string, port: string)
    requires IsPort(port) && ShellSafe(u, q, query, url)
    ensures BodyAt(u) < |Intended(u, q, query, url)|
    ensures RewriteAll(Intended(u, q, query, url), port)[BodyAt(u)] == Body(u, q.modelName, query)
            <==> !Mentions(Body(u, q.modelName, query))
  {
    BodyIsAt(u, q, query, url);
    RewriteIdentity(Body(u, q.modelName, query), port);
  }
}
