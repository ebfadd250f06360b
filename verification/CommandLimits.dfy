/** One input each for which a command built as text is not the command that was meant. */
module CommandLimits {
  import opened Wrappers
  import opened Shlex
  import opened Template
  import opened InferenceCommand
  import opened BodyQuoting
  import MustGather

  const BEFORE := "{\"text\": \""
  const AFTER := "\"}"

  const HEADER := "Accept:text/json"

  /** An internal service with one text field in its body. */
  const SERVICE := UserInference(
    "http", "infer",
    RuntimeConfig(BEFORE + ("$" + "query_input" + AFTER), HEADER, "infer", ""),
    None, false, "m", "localhost", false, false)

  const URL := "http://localhost/infer"

  function Asking(text: string): Request {
    Request("m", Some(Text(text)), false, true, "", "")
  }

  lemma {:induction false} NoPlaceholder(t: string, values: map<string, string>)
    requires forall i | 0 <= i < |t| :: t[i] != '$'
    ensures SafeSubstitute(t, values) == t
  {
    if t != "" {
      NoPlaceholder(t[1..], values);
    }
  }

  lemma BodyText(text: string)
    ensures Body(SERVICE, "m", Text(text)) == BEFORE + (text + AFTER)
  {
    var values := map["model_name" := "m", "query_input" := text];
    ValueGoesInVerbatim(BEFORE, "query_input", AFTER, values);
    NoPlaceholder(AFTER, values);
  }

  predicate AllPlain(t: string) {
    forall i | 0 <= i < |t| :: Plain(t[i])
  }

  lemma HeaderIsPlain()
    ensures AllPlain(HEADER) && forall i | 0 <= i < |HEADER| :: HEADER[i] != '$'
  {
  }

  lemma HeaderText()
    ensures Header(SERVICE, "m") == HEADER
  {
    HeaderIsPlain();
    NoPlaceholder(SERVICE.config.header, map["model_name" := "m"]);
  }

  lemma UrlIsPlain()
    ensures AllPlain(URL)
  {
  }

  lemma PlainSurroundings(u: UserInference, q: Request, header: string, url: string)
    requires Header(u, q.modelName) == header && AllPlain(header) && AllPlain(url)
    requires q.token == "" && q.caBundle == "" && u.config.args == ""
    ensures SimpleSurroundings(u, q, url)
  {
  }

  lemma SurroundingsAreSimple(text: string)
    ensures SimpleSurroundings(SERVICE, Asking(text), URL)
  {
    HeaderText();
    HeaderIsPlain();
    UrlIsPlain();
    PlainSurroundings(SERVICE, Asking(text), HEADER, URL);
  }

  lemma UrlText(protocol: string, host: string, path: string)
    requires protocol == "http" && host == "localhost" && path == "infer"
    ensures protocol + "://" + host + "/" + path == URL
  {
  }

  /** The URL is the service's own. */
  lemma ServiceUrl()
    ensures EndpointUrl(SERVICE) == Ok(URL)
  {
    NoPlaceholder("infer", map["model_name" := "m"]);
    UrlText("http", "localhost", "infer");
  }

  /** An apostrophe in the question. */
  lemma ApostropheWitness()
    ensures var q := Asking("it's");
            && ChosenQuery(SERVICE, q) == Ok(Text("it's")) && EndpointUrl(SERVICE) == Ok(URL)
            && Split(CommandText(SERVICE, q, Text("it's"), URL)) != Ok(Intended(SERVICE, q, Text("it's"), URL))
  {
    ServiceUrl();
    SurroundingsAreSimple("it's");
    BodyText("it's");
    var body := BEFORE + ("it's" + AFTER);
    assert body[|BEFORE| + 2] == '\'';
    BodyQuotingExact(SERVICE, Asking("it's"), Text("it's"), URL);
  }

  /** The name of the host in the question: the server is asked another one. */
  lemma HostNameWitness()
    ensures var q, query := Asking("localhost"), Text("localhost");
            && EndpointUrl(SERVICE) == Ok(URL) && ShellSafe(SERVICE, q, query, URL)
            && BodyAt(SERVICE) < |Intended(SERVICE, q, query, URL)|
            && Split(CommandText(SERVICE, q, query, URL)) == Ok(Intended(SERVICE, q, query, URL))
            && RewriteAll(Intended(SERVICE, q, query, URL), "8080")[BodyAt(SERVICE)] != Body(SERVICE, "m", query)
  {
    var q, query := Asking("localhost"), Text("localhost");
    ServiceUrl();
    SurroundingsAreSimple("localhost");
    BodyText("localhost");
    BodyMentions(BEFORE, AFTER);
    NoQuoteInBody();
    CommandMeans(SERVICE, q, query, URL);
    ForwardedBodyExact(SERVICE, q, query, URL, "8080");
  }

  lemma {:induction false} MentionsLater(t: string, n: nat)
    requires n <= |t| && Mentions(t[n..])
    ensures Mentions(t)
  {
    if n == 0 {
      assert t[0..] == t;
    } else {
      assert t[1..][n - 1..] == t[n..];
      MentionsLater(t[1..], n - 1);
    }
  }

  lemma BodyMentions(before: string, after: string)
    ensures Mentions(before + ("localhost" + after))
  {
    var body := before + ("localhost" + after);
    assert body[|before|..] == "localhost" + after;
    assert ("localhost" + after)[..9] == "localhost";
    MentionsLater(body, |before|);
  }

  lemma NoQuoteInBody()
    ensures '\'' !in BEFORE + ("localhost" + AFTER)
  {
  }

  /** A namespace name with a blank in it. */
  lemma BlankNameWitness()
    ensures var o := MustGather.Options("", "", "", "", map["operator" := "a b"]);
            Split(MustGather.CommandText(o)) != Ok(MustGather.Intended(o))
  {
    var o := MustGather.Options("", "", "", "", map["operator" := "a b"]);
    assert o.namespaces["operator"][1] == ' ' && !Safe(' ');
    assert !MustGather.SafeName(o.namespaces, "operator");
    MustGather.CommandExact(o);
  }
}
