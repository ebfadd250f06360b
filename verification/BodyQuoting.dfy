/**
 Exactly when `generate_command` quotes the request body right. The builder wraps the body in single
 quotes without escaping it, so everything hangs on single quotes inside the body.
 */
module BodyQuoting {
  import opened Wrappers
  import opened Shlex
  import opened InferenceCommand

  function Quotes(s: string): nat {
    if s == "" then 0 else (if s[0] == '\'' then 1 else 0) + Quotes(s[1..])
  }

  lemma {:induction false} QuotesConcat(a: string, b: string)
    ensures Quotes(a + b) == Quotes(a) + Quotes(b)
  {
    if a == "" {
      assert a + b == b;
    } else {
      assert (a + b)[0] == a[0] && (a + b)[1..] == a[1..] + b;
      QuotesConcat(a[1..], b);
    }
  }

  lemma {:induction false} NoQuotes(s: string)
    requires '\'' !in s
    ensures Quotes(s) == 0
  {
    if s != "" {
      NoQuotes(s[1..]);
    }
  }

  /** No character but the single quote matters to the lexer's quoting state. */
  predicate Simple(s: string) {
    '"' !in s && '\\' !in s
  }

  predicate Outside(s: State) {
    s.Between? || s.Word?
  }

  /** In simple text, quotes toggle between the outside and a single-quoted stretch. */
  lemma {:induction false} QuoteParity(s: Scan, input: string)
    requires Simple(input) && (Outside(s.state) || s.state.InSingle?)
    ensures Outside(Run(s, input).state) || Run(s, input).state.InSingle?
    ensures Outside(Run(s, input).state) <==> (Outside(s.state) <==> Quotes(input) % 2 == 0)
    decreases |input|
  {
    if input != "" {
      QuoteParity(Step(s, input[0]), input[1..]);
    }
  }

  lemma {:induction false} StuckInDouble(s: Scan, input: string)
    requires Simple(input) && s.state.InDouble?
    ensures Run(s, input).state.InDouble?
    decreases |input|
  {
    if input != "" {
      StuckInDouble(Step(s, input[0]), input[1..]);
    }
  }

  lemma FirstWordIsKept(s: Scan, n: nat)
    requires n < |s.words|
    ensures |s.words[n]| <= Kept(s)
  {
    WordInTotal(s.words, n);
  }

  lemma {:induction false} WordInTotal(ws: seq<string>, n: nat)
    requires n < |ws|
    ensures |ws[n]| <= Total(ws)
  {
    if n < |ws| - 1 {
      WordInTotal(ws[..|ws| - 1], n);
    }
  }

  /** Text after the opening quote of an unescaped body: the closing quote, a blank, and simple text
      with an even number of further quotes. */
  predicate Closing(rest: string) {
    |rest| >= 2 && rest[0] == '\'' && rest[1] == ' ' && Simple(rest) && Quotes(rest) % 2 == 1
  }

  /** Read after an opening quote, a body with a quote in it loses a character. */
  lemma BodyShrinks(body: string)
    requires '\'' in body
    ensures Kept(Run(Scan([], InSingle("")), body)) < |body|
  {
    var open := Scan([], InSingle(""));
    var p := FirstQuote(body);
    var head := body[..p];
    assert body == head + "'" + body[p + 1..];
    RunToQuote(head);
    RunConcat(open, head + "'", body[p + 1..]);
    KeptGrowth(Scan([], Word(head)), body[p + 1..]);
  }

  lemma RunToQuote(head: string)
    requires '\'' !in head
    ensures Run(Scan([], InSingle("")), head + "'") == Scan([], Word(head))
  {
    RunConcat(Scan([], InSingle("")), head, "'");
    RunQuoteFree([], "", head);
    assert "" + head == head;
    RunQuoteMarks([], head);
  }

  /** A quote and a blank end the word that is open. */
  lemma WordEnds(mid: Scan, rest: string, word: string)
    requires mid.words == [] && (mid.state.InSingle? || mid.state.Escape?) && Closing(rest)
    requires word == if mid.state.InSingle? then mid.state.text else mid.state.text + "'"
    ensures Run(mid, rest).words != [] && Run(mid, rest).words[0] == word
  {
    assert rest == ['\'', ' '] + rest[2..];
    RunConcat(mid, ['\'', ' '], rest[2..]);
    assert ['\'', ' '][1..] == [' '] && [' '][1..] == [];
    assert Run(mid, ['\'', ' ']) == Scan([word], Between);
    RunKeepsWords([word], START, rest[2..]);
    assert [word] + [] == [word];
  }

  /** A body with a quote in it is never the first word of what follows the opening quote. */
  lemma QuoteLosesBody(body: string, rest: string)
    requires '\'' in body && Closing(rest)
    ensures var s := Run(Scan([], InSingle("")), body + rest);
            Finish(s).Err? || (s.words != [] && s.words[0] != body)
  {
    var open := Scan([], InSingle(""));
    var mid := Run(open, body);
    BodyShrinks(body);
    RunConcat(open, body, rest);
    assert rest == ['\'', ' '] + rest[2..];
    if mid.words != [] {
      FirstWordIsKept(mid, 0);
      RunKeepsWords(mid.words, Scan([], mid.state), rest);
      assert mid.words + [] == mid.words;
    } else if Outside(mid.state) {
      QuoteParity(mid, rest);
    } else if mid.state.InDouble? {
      StuckInDouble(mid, rest);
    } else if mid.state.EscapeInDouble? {
      StuckInDouble(Step(mid, rest[0]), rest[1..]);
    } else {
      // A single-quoted stretch is closed, or the closing quote itself is escaped: a word ends here.
      var word := if mid.state.InSingle? then mid.state.text else mid.state.text + "'";
      WordEnds(mid, rest, word);
      if mid.state.Escape? {
        EscapeComesLast(open, body);
        assert word[|word| - 1] == '\'';
      }
    }
  }

  /** The parts around the body use no quoting characters of their own. */
  predicate SimpleSurroundings(u: UserInference, q: Request, url: string) {
    var header := Header(u, q.modelName);
    && '\'' !in header && Simple(header)
    && '\'' !in q.token && Simple(q.token)
    && (forall c | c in q.caBundle :: Plain(c))
    && PlainOrBlank(u.config.args) && PlainOrBlank(url)
  }

  predicate Even(s: string) {
    Simple(s) && Quotes(s) % 2 == 0
  }

  lemma EvenConcat(a: string, b: string)
    requires Even(a) && Even(b)
    ensures Even(a + b)
  {
    QuotesConcat(a, b);
  }

  lemma EvenPlain(s: string)
    requires PlainOrBlank(s)
    ensures Even(s)
  {
    NoQuotes(s);
  }

  lemma EvenAuthorization(token: string)
    requires '\'' !in token && Simple(token)
    ensures Even(" " + "-H 'Authorization: Bearer " + token + "'")
  {
    AuthText();
    QuotedOption(" ", "-H", "Authorization: Bearer ", token);
    EvenPlain(" " + "-H" + " ");
    BearerIsSimple(token);
    EvenWrapped("Authorization: Bearer " + token);
    EvenConcat(" " + "-H" + " ", Wrapped("Authorization: Bearer " + token));
  }

  lemma BearerIsSimple(token: string)
    requires '\'' !in token && Simple(token)
    ensures '\'' !in "Authorization: Bearer " + token && Simple("Authorization: Bearer " + token)
  {
  }

  lemma EvenWrapped(t: string)
    requires '\'' !in t && Simple(t)
    ensures Even(Wrapped(t))
  {
    QuotesConcat("'" + t, "'");
    QuotesConcat("'", t);
    NoQuotes(t);
    assert "'"[1..] == "";
  }

  lemma Regroup(a: string, b: string, c: string, d: string, e: string)
    ensures a + b + c + d + e == a + ("" + b + c + d + e)
    ensures a + b + c + d + e == a + (b + (c + d + e))
  {
  }

  /** What follows the request part does not depend on it and leaves no quote open. */
  lemma FinishedIsSuffix(u: UserInference, q: Request, url: string, head: string)
    ensures Finished(u, q, url, head) == head + Finished(u, q, url, "")
  {
    var auth := if q.token != "" then " " + "-H 'Authorization: Bearer " + q.token + "'" else "";
    var tls := if !q.insecure && q.caBundle != "" then " --cacert " + q.caBundle + " " else " --insecure";
    var extra := if u.config.args != "" then " " + u.config.args + " " else "";
    FinishedParts(u, q, url, head, auth, tls, extra);
    FinishedParts(u, q, url, "", auth, tls, extra);
    Regroup(head, auth, tls, extra, " " + url);
  }

  lemma FinishedParts(u: UserInference, q: Request, url: string, head: string,
                      auth: string, tls: string, extra: string)
    requires auth == if q.token != "" then " " + "-H 'Authorization: Bearer " + q.token + "'" else ""
    requires tls == if !q.insecure && q.caBundle != "" then " --cacert " + q.caBundle + " " else " --insecure"
    requires extra == if u.config.args != "" then " " + u.config.args + " " else ""
    ensures Finished(u, q, url, head) == head + auth + tls + extra + (" " + url)
  {
    var authorized := if q.token != "" then head + " " + "-H 'Authorization: Bearer " + q.token + "'" else head;
    Associate(head, " ", "-H 'Authorization: Bearer ", q.token, "'");
    assert authorized == head + auth;
    var secured := if !q.insecure && q.caBundle != "" then authorized + " --cacert " + q.caBundle + " "
                   else authorized + " --insecure";
    Associate(authorized, " --cacert ", q.caBundle, " ", "");
    assert secured == authorized + tls;
    var extended := if u.config.args != "" then secured + " " + u.config.args + " " else secured;
    Associate(secured, " ", u.config.args, " ", "");
    assert extended == secured + extra;
    Associate(extended, " ", url, "", "");
  }

  lemma Associate(a: string, b: string, c: string, d: string, e: string)
    ensures a + b + c + d + e == a + (b + c + d + e)
    ensures a + b + c + d == a + (b + c + d)
    ensures a + b + c == a + (b + c)
  {
  }

  lemma FinishedIsEven(u: UserInference, q: Request, url: string)
    requires SimpleSurroundings(u, q, url)
    ensures Even(Finished(u, q, url, ""))
  {
    var auth := if q.token != "" then " " + "-H 'Authorization: Bearer " + q.token + "'" else "";
    var tls := if !q.insecure && q.caBundle != "" then " --cacert " + q.caBundle + " " else " --insecure";
    var extra := if u.config.args != "" then " " + u.config.args + " " else "";
    FinishedParts(u, q, url, "", auth, tls, extra);
    if q.token != "" {
      EvenAuthorization(q.token);
    }
    EvenPlain(tls);
    EvenPlain(extra);
    EvenPlain(" " + url);
    assert "" + auth == auth;
    EvenConcat(auth, tls);
    EvenConcat(auth + tls, extra);
    EvenConcat(auth + tls + extra, " " + url);
  }

  lemma CommandAroundBody(u: UserInference, q: Request, query: Query, url: string) returns (rest: string)
    requires SimpleSurroundings(u, q, url)
    ensures CommandText(u, q, query, url) == Exec(u) + " -d '" + (Body(u, q.modelName, query) + rest)
    ensures Closing(rest)
  {
    var body, header := Body(u, q.modelName, query), Header(u, q.modelName);
    var tail := Finished(u, q, url, "");
    var open := "'  -H " + Wrapped(header);
    rest := open + tail;
    var head := Exec(u) + " -d '" + body + "'  -H " + Wrapped(header);
    FinishedIsSuffix(u, q, url, head);
    Regroup(Exec(u) + " -d '", body, "'  -H ", Wrapped(header), tail);
    FinishedIsEven(u, q, url);
    RequestCloses(header, tail);
  }

  lemma RequestCloses(header: string, tail: string)
    requires '\'' !in header && Simple(header) && Even(tail)
    ensures Closing("'  -H " + Wrapped(header) + tail)
  {
    var open := "'  -H ";
    EvenWrapped(header);
    QuotesConcat(open, Wrapped(header));
    QuotesConcat(open + Wrapped(header), tail);
    assert open[0] == '\'' && open[1] == ' ';
    NoQuotes(open[1..]);
  }

  lemma RunBeforeBody(u: UserInference)
    ensures Run(START, Exec(u) + " -d '") == Scan(ExecArgs(u) + ["-d"], InSingle(""))
  {
    ExecMeans(true, u);
    AddWord(true, Exec(u), ExecArgs(u), "-d");
    AddBlank(true, Exec(u) + " " + "-d", ExecArgs(u) + ["-d"]);
    var head := Exec(u) + " " + "-d" + " ";
    var s := Run(START, head);
    RunConcat(START, Exec(u) + " " + "-d", " ");
    assert s == Step(Run(START, Exec(u) + " " + "-d"), ' ') by { assert " "[1..] == ""; }
    assert Exec(u) + " -d '" == head + "'";
    RunConcat(START, head, "'");
    assert Run(s, "'") == Step(s, '\'') by { assert "'"[1..] == ""; }
  }

  /** The whole command is read as the intended arguments exactly when the body holds no single quote. */
  lemma BodyQuotingExact(u: UserInference, q: Request, query: Query, url: string)
    requires SimpleSurroundings(u, q, url)
    ensures Split(CommandText(u, q, query, url)) == Ok(Intended(u, q, query, url))
            <==> '\'' !in Body(u, q.modelName, query)
  {
    var body := Body(u, q.modelName, query);
    if '\'' !in body {
      CommandMeans(u, q, query, url);
    } else {
      var rest := CommandAroundBody(u, q, query, url);
      var before := ExecArgs(u) + ["-d"];
      RunBeforeBody(u);
      RunConcat(START, Exec(u) + " -d '", body + rest);
      RunKeepsWords(before, Scan([], InSingle("")), body + rest);
      assert before + [] == before;
      QuoteLosesBody(body, rest);
      BodyIsAt(u, q, query, url);
      var s := Run(Scan([], InSingle("")), body + rest);
      if Finish(s).Ok? {
        assert Split(CommandText(u, q, query, url)).value[BodyAt(u)] == s.words[0];
      }
    }
  }
}
