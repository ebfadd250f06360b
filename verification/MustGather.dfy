/** The command line of `run_must_gather` and what splitting it yields. */
module MustGather {
  import opened Wrappers
  import opened Shlex

  datatype Options = Options(
    imageUrl: string,
    targetDir: string,
    since: string,
    componentName: string,
    namespaces: map<string, string>)

  datatype Failure = ComponentAndNamespaces

  function Export(namespaces: map<string, string>, key: string, variable: string): string {
    if Present(namespaces, key) then "export " + variable + "=" + Quote(namespaces[key]) + ";" else ""
  }

  predicate Present(namespaces: map<string, string>, key: string) {
    key in namespaces && namespaces[key] != ""
  }

  function ComponentExports(ns: map<string, string>): string {
    Export(ns, "operator", "OPERATOR_NAMESPACE") + Export(ns, "notebooks", "NOTEBOOKS_NAMESPACE")
    + Export(ns, "monitoring", "MONITORING_NAMESPACE") + Export(ns, "application", "APPLICATIONS_NAMESPACE")
  }

  function Exports(ns: map<string, string>): string {
    ComponentExports(ns)
    + Export(ns, "model_registries", "MODEL_REGISTRIES_NAMESPACE") + Export(ns, "ossm", "OSSM_NS")
    + Export(ns, "knative", "KNATIVE_NS") + Export(ns, "auth", "AUTH_NS")
  }

  /** A single script argument after `--`, or none. */
  function Script(o: Options): Option<string> {
    if o.componentName != "" then Some("export COMPONENT=" + o.componentName + "; /usr/bin/gather")
    else if o.namespaces != map[] then Some(Exports(o.namespaces) + " /usr/bin/gather")
    else None
  }

  function Flag(name: string, value: string): seq<string> {
    if value != "" then [name + value] else []
  }

  function Intended(o: Options): seq<string> {
    ["oc", "adm", "must-gather"] + Flag("--dest-dir=", o.targetDir) + Flag("--since=", o.since)
    + Flag("--image=", o.imageUrl) + if Script(o).Some? then ["--", Script(o).value] else []
  }

  predicate PlainText(t: string) {
    forall c | c in t :: Plain(c)
  }

  predicate PlainFlags(o: Options) {
    PlainText(o.targetDir) && PlainText(o.since) && PlainText(o.imageUrl)
  }

  predicate SafeName(ns: map<string, string>, key: string) {
    Present(ns, key) ==> AllSafe(ns[key])
  }

  /** Names that need no quoting, as every DNS label does. */
  predicate SafeNames(ns: map<string, string>) {
    && SafeName(ns, "operator") && SafeName(ns, "notebooks") && SafeName(ns, "monitoring")
    && SafeName(ns, "application") && SafeName(ns, "model_registries") && SafeName(ns, "ossm")
    && SafeName(ns, "knative") && SafeName(ns, "auth")
  }

  function WithFlags(o: Options, cmd: string): string {
    var targeted := if o.targetDir != "" then cmd + " --dest-dir=" + o.targetDir else cmd;
    var limited := if o.since != "" then targeted + " --since=" + o.since else targeted;
    if o.imageUrl != "" then limited + " --image=" + o.imageUrl else limited
  }

  function CommandText(o: Options): string {
    var cmd := WithFlags(o, "oc adm must-gather");
    if o.componentName != "" then cmd + " -- 'export COMPONENT=" + o.componentName + "; /usr/bin/gather' "
    else if o.namespaces != map[] then cmd + " -- '" + Exports(o.namespaces) + " /usr/bin/gather'"
    else cmd
  }

  method Command(o: Options) returns (r: Result<string, Failure>)
    ensures r.Err? <==> o.componentName != "" && o.namespaces != map[]
    ensures r.Ok? ==> r.value == CommandText(o)
    ensures r.Ok? && PlainFlags(o) && o.componentName != "" ==>
              (Split(r.value) == Ok(Intended(o)) <==> '\'' !in o.componentName)
    ensures r.Ok? && PlainFlags(o) && o.componentName == "" ==>
              (Split(r.value) == Ok(Intended(o)) <==> SafeNames(o.namespaces))
  {
    if o.componentName != "" && o.namespaces != map[] {
      return Err(ComponentAndNamespaces);
    }
    var cmd := "oc adm must-gather";
    if o.targetDir != "" {
      cmd := cmd + " --dest-dir=" + o.targetDir;
    }
    if o.since != "" {
      cmd := cmd + " --since=" + o.since;
    }
    if o.imageUrl != "" {
      cmd := cmd + " --image=" + o.imageUrl;
    }
    if o.componentName != "" {
      cmd := cmd + " -- 'export COMPONENT=" + o.componentName + "; /usr/bin/gather' ";
    } else if o.namespaces != map[] {
      var exports := Export(o.namespaces, "operator", "OPERATOR_NAMESPACE");
      exports := exports + Export(o.namespaces, "notebooks", "NOTEBOOKS_NAMESPACE");
      exports := exports + Export(o.namespaces, "monitoring", "MONITORING_NAMESPACE");
      exports := exports + Export(o.namespaces, "application", "APPLICATIONS_NAMESPACE");
      exports := exports + Export(o.namespaces, "model_registries", "MODEL_REGISTRIES_NAMESPACE");
      exports := exports + Export(o.namespaces, "ossm", "OSSM_NS");
      exports := exports + Export(o.namespaces, "knative", "KNATIVE_NS");
      exports := exports + Export(o.namespaces, "auth", "AUTH_NS");
      cmd := cmd + " -- '" + exports + " /usr/bin/gather'";
    }
    if PlainFlags(o) {
      CommandExact(o);
    }
    return Ok(cmd);
  }

  /** The variable each kind of namespace is exported under. */
  predicate Variable(key: string, variable: string) {
    match key
    case "operator" => variable == "OPERATOR_NAMESPACE"
    case "notebooks" => variable == "NOTEBOOKS_NAMESPACE"
    case "monitoring" => variable == "MONITORING_NAMESPACE"
    case "application" => variable == "APPLICATIONS_NAMESPACE"
    case "model_registries" => variable == "MODEL_REGISTRIES_NAMESPACE"
    case "ossm" => variable == "OSSM_NS"
    case "knative" => variable == "KNATIVE_NS"
    case "auth" => variable == "AUTH_NS"
    case _ => false
  }

  /** One namespace given is one export, under its variable; an empty name is none. */
  lemma OneExport(ns: map<string, string>, key: string, variable: string)
    requires Variable(key, variable) && key in ns && forall other | other in ns :: other == key
    ensures Exports(ns) == if ns[key] == "" then "" else "export " + variable + "=" + Quote(ns[key]) + ";"
  {
    var text := Export(ns, key, variable);
    ComponentExport(ns, key, variable, text);
    OtherExport(ns, key, variable, text);
    if OfComponent(key) {
      EmptyTail(ComponentExports(ns), Export(ns, "model_registries", "MODEL_REGISTRIES_NAMESPACE"),
                Export(ns, "ossm", "OSSM_NS"), Export(ns, "knative", "KNATIVE_NS"), Export(ns, "auth", "AUTH_NS"));
    }
  }

  predicate OfComponent(key: string) {
    key == "operator" || key == "notebooks" || key == "monitoring" || key == "application"
  }

  lemma ComponentExport(ns: map<string, string>, key: string, variable: string, text: string)
    requires Variable(key, variable) && (forall other | other in ns :: other == key)
    requires text == Export(ns, key, variable)
    ensures ComponentExports(ns) == if OfComponent(key) then text else ""
  {
  }

  lemma EmptyTail(head: string, a: string, b: string, c: string, d: string)
    requires a == b == c == d == ""
    ensures head + a + b + c + d == head
  {
  }

  lemma OtherExport(ns: map<string, string>, key: string, variable: string, text: string)
    requires Variable(key, variable) && (forall other | other in ns :: other == key)
    requires text == Export(ns, key, variable)
    ensures var a, b := Export(ns, "model_registries", "MODEL_REGISTRIES_NAMESPACE"), Export(ns, "ossm", "OSSM_NS");
            var c, d := Export(ns, "knative", "KNATIVE_NS"), Export(ns, "auth", "AUTH_NS");
            if OfComponent(key) then a == b == c == d == "" else "" + a + b + c + d == text
  {
  }

  lemma CommandExact(o: Options)
    requires PlainFlags(o)
    ensures o.componentName != "" ==> (Split(CommandText(o)) == Ok(Intended(o)) <==> '\'' !in o.componentName)
    ensures o.componentName == "" ==> (Split(CommandText(o)) == Ok(Intended(o)) <==> SafeNames(o.namespaces))
  {
    FlagsExact(o);
    var cmd, args := WithFlags(o, "oc adm must-gather"), FlagArgs(o);
    if o.componentName != "" {
      var before, after := "export COMPONENT=", "; /usr/bin/gather";
      AddScript(cmd, args, before + o.componentName + after);
      ScriptText(cmd, before, o.componentName, after);
      ScriptLiterals();
    } else if o.namespaces != map[] {
      AddScript(cmd, args, Exports(o.namespaces) + " /usr/bin/gather");
      ScriptText(cmd, "", Exports(o.namespaces), " /usr/bin/gather");
      assert "" + Exports(o.namespaces) == Exports(o.namespaces);
      ScriptLiterals();
      ExportsQuoteFree(o.namespaces);
    } else {
      assert args + [] == args;
    }
  }

  lemma ScriptText(cmd: string, before: string, value: string, after: string)
    ensures cmd + " -- " + Wrapped(before + value + after) == cmd + (" -- '" + before) + value + (after + "'")
    ensures cmd + " -- " + Wrapped(before + value + after) + " " == cmd + (" -- '" + before) + value + (after + "' ")
  {
  }

  lemma ScriptLiterals()
    ensures " -- '" + "export COMPONENT=" == " -- 'export COMPONENT="
    ensures "; /usr/bin/gather" + "' " == "; /usr/bin/gather' "
    ensures " -- '" + "" == " -- '"
    ensures " /usr/bin/gather" + "'" == " /usr/bin/gather'"
    ensures '\'' !in "export COMPONENT=" && '\'' !in "; /usr/bin/gather" && '\'' !in " /usr/bin/gather"
  {
  }

  function FlagArgs(o: Options): seq<string> {
    ["oc", "adm", "must-gather"] + Flag("--dest-dir=", o.targetDir) + Flag("--since=", o.since)
    + Flag("--image=", o.imageUrl)
  }

  lemma ThreeWords(a: string, b: string, c: string)
    requires a != "" && b != "" && c != "" && PlainText(a) && PlainText(b) && PlainText(c)
    ensures Split(a + " " + b + " " + c) == Ok([a, b, c])
  {
    PlainWordExact(a);
    SplitAddWord(a, b);
    SplitAddWord(a + " " + b, c);
    assert [a] + [b] + [c] == [a, b, c];
  }

  lemma BaseText()
    ensures "oc" + " " + "adm" + " " + "must-gather" == "oc adm must-gather"
    ensures PlainText("oc") && PlainText("adm") && PlainText("must-gather")
  {
  }

  lemma FlagTexts()
    ensures " " + "--dest-dir=" == " --dest-dir=" && PlainText("--dest-dir=")
    ensures " " + "--since=" == " --since=" && PlainText("--since=")
    ensures " " + "--image=" == " --image=" && PlainText("--image=")
  {
  }

  lemma FlagsExact(o: Options)
    requires PlainFlags(o)
    ensures Split(WithFlags(o, "oc adm must-gather")) == Ok(FlagArgs(o))
  {
    ThreeWordsBase();
    FlagsAfter(o, "oc adm must-gather", ["oc", "adm", "must-gather"]);
  }

  lemma ThreeWordsBase()
    ensures Split("oc adm must-gather") == Ok(["oc", "adm", "must-gather"])
  {
    BaseText();
    ThreeWords("oc", "adm", "must-gather");
  }

  lemma FlagsAfter(o: Options, base: string, args: seq<string>)
    requires PlainFlags(o) && Split(base) == Ok(args)
    ensures Split(WithFlags(o, base))
         == Ok(args + Flag("--dest-dir=", o.targetDir) + Flag("--since=", o.since) + Flag("--image=", o.imageUrl))
  {
    FlagTexts();
    AddFlag(base, args, "--dest-dir=", o.targetDir);
    var targeted := if o.targetDir != "" then base + " --dest-dir=" + o.targetDir else base;
    AddFlag(targeted, args + Flag("--dest-dir=", o.targetDir), "--since=", o.since);
    var limited := if o.since != "" then targeted + " --since=" + o.since else targeted;
    AddFlag(limited, args + Flag("--dest-dir=", o.targetDir) + Flag("--since=", o.since), "--image=", o.imageUrl);
  }

  lemma AddFlag(cmd: string, args: seq<string>, name: string, value: string)
    requires Split(cmd) == Ok(args) && PlainText(name) && PlainText(value)
    requires name != ""
    ensures Split(if value != "" then cmd + (" " + name) + value else cmd) == Ok(args + Flag(name, value))
  {
    if value != "" {
      SplitAddWord(cmd, name + value);
      assert cmd + (" " + name) + value == cmd + " " + (name + value);
    } else {
      assert args + [] == args;
    }
  }

  /** The script stays one argument exactly when it brings no single quote of its own. */
  lemma AddScript(cmd: string, args: seq<string>, script: string)
    requires Split(cmd) == Ok(args)
    ensures Split(cmd + " -- " + Wrapped(script)) == Ok(args + ["--", script]) <==> '\'' !in script
    ensures Split(cmd + " -- " + Wrapped(script) + " ") == Split(cmd + " -- " + Wrapped(script))
  {
    SplitAddWord(cmd, "--");
    WrappedExactAfter(cmd + " " + "--", script);
    assert cmd + " " + "--" + " " + Wrapped(script) == cmd + " -- " + Wrapped(script);
    assert args + ["--"] + [script] == args + ["--", script];
  }

  lemma ExportQuoteFree(ns: map<string, string>, key: string, variable: string)
    requires '\'' !in variable
    ensures '\'' !in Export(ns, key, variable) <==> SafeName(ns, key)
  {
    if Present(ns, key) {
      QuoteIsBareExactly(ns[key]);
    }
  }

  lemma ComponentExportsQuoteFree(ns: map<string, string>)
    ensures '\'' !in ComponentExports(ns)
            <==> SafeName(ns, "operator") && SafeName(ns, "notebooks") && SafeName(ns, "monitoring")
                 && SafeName(ns, "application")
  {
    ExportQuoteFree(ns, "operator", "OPERATOR_NAMESPACE");
    ExportQuoteFree(ns, "notebooks", "NOTEBOOKS_NAMESPACE");
    ExportQuoteFree(ns, "monitoring", "MONITORING_NAMESPACE");
    ExportQuoteFree(ns, "application", "APPLICATIONS_NAMESPACE");
  }

  lemma ExportsQuoteFree(ns: map<string, string>)
    ensures '\'' !in Exports(ns) <==> SafeNames(ns)
  {
    ComponentExportsQuoteFree(ns);
    OthersQuoteFree(ns, ComponentExports(ns));
  }

  lemma OthersQuoteFree(ns: map<string, string>, head: string)
    ensures '\'' !in head + Export(ns, "model_registries", "MODEL_REGISTRIES_NAMESPACE") + Export(ns, "ossm", "OSSM_NS")
                     + Export(ns, "knative", "KNATIVE_NS") + Export(ns, "auth", "AUTH_NS")
            <==> '\'' !in head && SafeName(ns, "model_registries") && SafeName(ns, "ossm") && SafeName(ns, "knative")
                 && SafeName(ns, "auth")
  {
    ExportQuoteFree(ns, "model_registries", "MODEL_REGISTRIES_NAMESPACE");
    ExportQuoteFree(ns, "ossm", "OSSM_NS");
    ExportQuoteFree(ns, "knative", "KNATIVE_NS");
    ExportQuoteFree(ns, "auth", "AUTH_NS");
    JoinedQuoteFree(head, Export(ns, "model_registries", "MODEL_REGISTRIES_NAMESPACE"), Export(ns, "ossm", "OSSM_NS"),
                    Export(ns, "knative", "KNATIVE_NS"), Export(ns, "auth", "AUTH_NS"));
  }

  lemma JoinedQuoteFree(a: string, b: string, c: string, d: string, e: string)
    ensures '\'' !in a + b + c + d + e
            <==> '\'' !in a && '\'' !in b && '\'' !in c && '\'' !in d && '\'' !in e
  {
  }

  /** Every RFC 1123 label is safe, so cluster namespace names always meet the condition. */
  lemma LabelsAreSafe(name: string)
    requires name != "" && forall c | c in name :: 'a' <= c <= 'z' || '0' <= c <= '9' || c == '-'
    ensures AllSafe(name)
  {
    assert '-' in "_@%+=:,./-" by { assert "_@%+=:,./-"[9] == '-'; }
  }
}
