/**
 The part of Python's `shlex` the repository relies on: `shlex.split` in its POSIX mode, which
 follows the quoting rules of section 2.2 of the POSIX Shell Command Language, and `shlex.quote`.
 Both are library code, so they are modelled as functions; what the callers need of them is proved.
 */
module Shlex {
  import opened Wrappers

  datatype LexError = NoClosingQuotation | NoEscapedCharacter

  /** Where the lexer stands; every state but `Between` carries the word read so far. */
  datatype State =
    | Between
    | Word(text: string)
    | InSingle(text: string)
    | InDouble(text: string)
    | Escape(text: string)
    | EscapeInDouble(text: string)

  datatype Scan = Scan(words: seq<string>, state: State)

  const START := Scan([], Between)

  predicate Blank(c: char) {
    c == ' ' || c == '\t' || c == '\r' || c == '\n'
  }

  /** Characters that stand for themselves outside quotes. */
  predicate Plain(c: char) {
    !Blank(c) && c != '\'' && c != '"' && c != '\\'
  }

  function Step(s: Scan, c: char): Scan {
    match s.state
    case Between =>
      if Blank(c) then s
      else if c == '\'' then s.(state := InSingle(""))
      else if c == '"' then s.(state := InDouble(""))
      else if c == '\\' then s.(state := Escape(""))
      else s.(state := Word([c]))
    case Word(t) =>
      if Blank(c) then Scan(s.words + [t], Between)
      else if c == '\'' then s.(state := InSingle(t))
      else if c == '"' then s.(state := InDouble(t))
      else if c == '\\' then s.(state := Escape(t))
      else s.(state := Word(t + [c]))
    case InSingle(t) =>
      if c == '\'' then s.(state := Word(t)) else s.(state := InSingle(t + [c]))
    case InDouble(t) =>
      if c == '"' then s.(state := Word(t))
      else if c == '\\' then s.(state := EscapeInDouble(t))
      else s.(state := InDouble(t + [c]))
    case Escape(t) => s.(state := Word(t + [c]))
    case EscapeInDouble(t) =>
      // Between double quotes a backslash is dropped only before a backslash or a double quote.
      s.(state := InDouble(t + (if c == '\\' || c == '"' then [c] else ['\\', c])))
  }

  function Run(s: Scan, input: string): Scan
    decreases |input|
  {
    if input == "" then s else Run(Step(s, input[0]), input[1..])
  }

  function Finish(s: Scan): Result<seq<string>, LexError> {
    match s.state
    case Between => Ok(s.words)
    case Word(t) => Ok(s.words + [t])
    case InSingle(_) => Err(NoClosingQuotation)
    case InDouble(_) => Err(NoClosingQuotation)
    case Escape(_) => Err(NoEscapedCharacter)
    case EscapeInDouble(_) => Err(NoEscapedCharacter)
  }

  function Split(input: string): Result<seq<string>, LexError> {
    Finish(Run(START, input))
  }

  lemma {:induction false} RunConcat(s: Scan, a: string, b: string)
    ensures Run(s, a + b) == Run(Run(s, a), b)
    decreases |a|
  {
    if a == "" {
      assert a + b == b;
    } else {
      assert (a + b)[0] == a[0] && (a + b)[1..] == a[1..] + b;
      RunConcat(Step(s, a[0]), a[1..], b);
    }
  }

  /** Words already finished never influence the rest of a run. */
  lemma {:induction false} RunKeepsWords(ws: seq<string>, s: Scan, input: string)
    ensures Run(Scan(ws + s.words, s.state), input)
         == Scan(ws + Run(s, input).words, Run(s, input).state)
    decreases |input|
  {
    if input != "" {
      var t := Step(s, input[0]);
      if s.state.Word? {
        assert ws + (s.words + [s.state.text]) == (ws + s.words) + [s.state.text];
      }
      assert Step(Scan(ws + s.words, s.state), input[0]) == Scan(ws + t.words, t.state);
      RunKeepsWords(ws, t, input[1..]);
    }
  }

  /** A blank after a complete prefix separates for good: the two sides are split on their own. */
  lemma {:induction false} SplitAtBlank(a: string, c: char, b: string)
    requires Blank(c) && Split(a).Ok?
    ensures Split(a + [c] + b)
         == match Split(b) case Ok(ws) => Ok(Split(a).value + ws) case Err(e) => Err(e)
  {
    var s := Run(START, a);
    RunConcat(START, a + [c], b);
    RunConcat(START, a, [c]);
    assert Run(s, [c]) == Step(s, c) by { assert [c][1..] == ""; }
    assert Step(s, c) == Scan(Split(a).value, Between);
    RunKeepsWords(Split(a).value, START, b);
    assert Split(a).value + START.words == Split(a).value;
    var r := Run(START, b);
    if r.state.Word? {
      assert (Split(a).value + r.words) + [r.state.text] == Split(a).value + (r.words + [r.state.text]);
    }
  }

  lemma {:induction false} RunPlain(ws: seq<string>, t: string, w: string)
    requires forall c | c in w :: Plain(c)
    ensures Run(Scan(ws, Word(t)), w) == Scan(ws, Word(t + w))
    decreases |w|
  {
    if w == "" {
      assert t + w == t;
    } else {
      assert Plain(w[0]);
      assert t + w == (t + [w[0]]) + w[1..];
      RunPlain(ws, t + [w[0]], w[1..]);
    }
  }

  lemma {:induction false} RunQuoteFree(ws: seq<string>, t: string, w: string)
    requires '\'' !in w
    ensures Run(Scan(ws, InSingle(t)), w) == Scan(ws, InSingle(t + w))
    decreases |w|
  {
    if w == "" {
      assert t + w == t;
    } else {
      assert t + w == (t + [w[0]]) + w[1..];
      RunQuoteFree(ws, t + [w[0]], w[1..]);
    }
  }

  /** Number of characters a scan has kept. */
  function Kept(s: Scan): nat {
    Total(s.words) + match s.state
                     case Between => 0
                     case EscapeInDouble(t) => |t| + 1
                     case _ => |s.state.text|
  }

  function Total(ws: seq<string>): nat {
    if ws == [] then 0 else Total(ws[..|ws| - 1]) + |ws[|ws| - 1]|
  }

  /** The lexer never invents characters ... */
  lemma {:induction false} KeptGrowth(s: Scan, input: string)
    ensures Kept(Run(s, input)) <= Kept(s) + |input|
    decreases |input|
  {
    if input != "" {
      StepGrowth(s, input[0]);
      KeptGrowth(Step(s, input[0]), input[1..]);
    }
  }

  lemma StepGrowth(s: Scan, c: char)
    ensures Kept(Step(s, c)) <= Kept(s) + 1
    ensures (s.state.Between? || s.state.Word?) && !Plain(c) ==> Kept(Step(s, c)) <= Kept(s)
  {
    if s.state.Word? && Blank(c) {
      assert (s.words + [s.state.text])[..|s.words|] == s.words;
    }
  }

  /** ... and drops one wherever an unquoted stretch holds a special character. */
  lemma {:induction false} SpecialIsDropped(s: Scan, input: string)
    requires s.state.Between? || s.state.Word?
    requires exists c :: c in input && !Plain(c)
    ensures Kept(Run(s, input)) < Kept(s) + |input|
    decreases |input|
  {
    StepGrowth(s, input[0]);
    if Plain(input[0]) {
      var c :| c in input && !Plain(c);
      assert c in input[1..];
      SpecialIsDropped(Step(s, input[0]), input[1..]);
    } else {
      KeptGrowth(Step(s, input[0]), input[1..]);
    }
  }

  lemma OneWordTotal(w: string)
    ensures Total([w]) == |w|
  {
    assert [w][..0] == [];
  }

  lemma FinishTotal(s: Scan)
    requires Finish(s).Ok?
    ensures Total(Finish(s).value) == Kept(s)
  {
    if s.state.Word? {
      assert (s.words + [s.state.text])[..|s.words|] == s.words;
    }
  }

  /** An unquoted text is read as exactly itself if and only if it is non-empty and all plain. */
  lemma PlainWordExact(w: string)
    ensures Split(w) == Ok([w]) <==> w != "" && forall c | c in w :: Plain(c)
  {
    if w != "" && forall c | c in w :: Plain(c) {
      assert Plain(w[0]);
      RunPlain([], [w[0]], w[1..]);
      assert [w[0]] + w[1..] == w;
      assert [] + [w] == [w];
    } else if w != "" && Split(w) == Ok([w]) {
      SpecialIsDropped(START, w);
      FinishTotal(Run(START, w));
      OneWordTotal(w);
    }
  }

  /** Wrapping a text in single quotes, as the command builders do. */
  function Wrapped(t: string): string {
    "'" + t + "'"
  }

  /** The opening and the closing quote of a quoted text. */
  lemma RunQuoteMarks(ws: seq<string>, t: string)
    ensures Run(Scan(ws, Between), "'") == Scan(ws, InSingle(""))
    ensures Run(Scan(ws, InSingle(t)), "'") == Scan(ws, Word(t))
  {
    assert "'"[1..] == "";
  }

  lemma RunWrapped(ws: seq<string>, t: string)
    requires '\'' !in t
    ensures Run(Scan(ws, Between), Wrapped(t)) == Scan(ws, Word(t))
  {
    RunConcat(Scan(ws, Between), "'" + t, "'");
    RunConcat(Scan(ws, Between), "'", t);
    RunQuoteFree(ws, "", t);
    assert "" + t == t;
    RunQuoteMarks(ws, t);
  }

  function FirstQuote(t: string): (p: nat)
    requires '\'' in t
    ensures p < |t| && t[p] == '\'' && '\'' !in t[..p]
  {
    if t[0] == '\'' then 0
    else
      assert '\'' in t[1..];
      var p := 1 + FirstQuote(t[1..]);
      assert t[..p] == [t[0]] + t[1..][..p - 1];
      p
  }

  /** A quote inside closes the wrapping early, so at least one character too few is kept. */
  lemma WrappedLosesQuotes(t: string)
    requires '\'' in t
    ensures Kept(Run(START, Wrapped(t))) < |t|
  {
    var p := FirstQuote(t);
    var head, rest := t[..p], t[p + 1..] + "'";
    assert Wrapped(t) == Wrapped(head) + rest;
    RunConcat(START, Wrapped(head), rest);
    RunWrapped([], head);
    assert rest[|rest| - 1] == '\'' && !Plain('\'');
    assert '\'' in rest;
    SpecialIsDropped(Scan([], Word(head)), rest);
  }

  /** A wrapped text is one argument, verbatim, if and only if it holds no single quote. */
  lemma WrappedExact(t: string)
    ensures Split(Wrapped(t)) == Ok([t]) <==> '\'' !in t
  {
    if '\'' !in t {
      RunWrapped([], t);
      assert [] + [t] == [t];
    } else if Split(Wrapped(t)) == Ok([t]) {
      WrappedLosesQuotes(t);
      FinishTotal(Run(START, Wrapped(t)));
      OneWordTotal(t);
    }
  }

  /** One more plain word after a complete command is one more argument. */
  lemma SplitAddWord(a: string, w: string)
    requires Split(a).Ok? && w != "" && forall c | c in w :: Plain(c)
    ensures Split(a + " " + w) == Ok(Split(a).value + [w])
  {
    SplitAtBlank(a, ' ', w);
    PlainWordExact(w);
  }

  lemma EscapeComesLast(s: Scan, input: string)
    requires input != "" && (Run(s, input).state.Escape? || Run(s, input).state.EscapeInDouble?)
    ensures input[|input| - 1] == '\\'
  {
    var n := |input| - 1;
    assert input == input[..n] + [input[n]];
    RunConcat(s, input[..n], [input[n]]);
    assert Run(Run(s, input[..n]), [input[n]]) == Step(Run(s, input[..n]), input[n]) by {
      assert [input[n]][1..] == "";
    }
  }

  /** The same characterisation behind any complete command, with or without a trailing blank. */
  lemma WrappedExactAfter(a: string, t: string)
    requires Split(a).Ok?
    ensures Split(a + " " + Wrapped(t)) == Ok(Split(a).value + [t]) <==> '\'' !in t
    ensures Split(a + " " + Wrapped(t) + " ") == Split(a + " " + Wrapped(t))
  {
    var cmd := a + " " + Wrapped(t);
    SplitAtBlank(a, ' ', Wrapped(t));
    WrappedExact(t);
    if Split(Wrapped(t)).Ok? {
      var ws := Split(Wrapped(t)).value;
      assert (Split(a).value + ws)[|Split(a).value|..] == ws;
      assert (Split(a).value + [t])[|Split(a).value|..] == [t];
    }
    assert cmd[|cmd| - 1] == '\'';
    var s := Run(START, cmd);
    if s.state.Escape? || s.state.EscapeInDouble? {
      EscapeComesLast(START, cmd);
    }
    RunConcat(START, cmd, " ");
    assert Run(s, " ") == Step(s, ' ') by { assert " "[1..] == ""; }
  }

  /** Characters `shlex.quote` leaves unquoted: ASCII letters, digits and `_@%+=:,./-`. */
  predicate Safe(c: char) {
    'a' <= c <= 'z' || 'A' <= c <= 'Z' || '0' <= c <= '9' || c in "_@%+=:,./-"
  }

  predicate AllSafe(s: string) {
    s != "" && forall c | c in s :: Safe(c)
  }

  function EscapedChar(c: char): string {
    if c == '\'' then "'\"'\"'" else [c]
  }

  function EscapeQuotes(s: string): string {
    if s == "" then "" else EscapedChar(s[0]) + EscapeQuotes(s[1..])
  }

  function Quote(s: string): string {
    if AllSafe(s) then s else Wrapped(EscapeQuotes(s))
  }

  lemma RunCons(s: Scan, c: char, rest: string)
    ensures Run(s, [c] + rest) == Run(Step(s, c), rest)
  {
    assert ([c] + rest)[1..] == rest;
  }

  /** A quote leaves the single quotes, stands in double quotes, and enters single quotes again. */
  lemma RunEscapedQuote(t: string)
    ensures Run(Scan([], InSingle(t)), "'\"'\"'") == Scan([], InSingle(t + "'"))
  {
    assert "'\"'\"'" == ['\''] + (['"'] + (['\''] + (['"'] + (['\''] + ""))));
    RunCons(Scan([], InSingle(t)), '\'', ['"'] + (['\''] + (['"'] + (['\''] + ""))));
    RunCons(Scan([], Word(t)), '"', ['\''] + (['"'] + (['\''] + "")));
    RunCons(Scan([], InDouble(t)), '\'', ['"'] + (['\''] + ""));
    RunCons(Scan([], InDouble(t + "'")), '"', ['\''] + "");
    RunCons(Scan([], Word(t + "'")), '\'', "");
  }

  lemma {:induction false} RunEscapeQuotes(t: string, s: string)
    ensures Run(Scan([], InSingle(t)), EscapeQuotes(s)) == Scan([], InSingle(t + s))
    decreases |s|
  {
    if s == "" {
      assert t + s == t;
    } else {
      RunEscapedChar(t, s[0]);
      RunConcat(Scan([], InSingle(t)), EscapedChar(s[0]), EscapeQuotes(s[1..]));
      RunEscapeQuotes(t + [s[0]], s[1..]);
      assert t + s == (t + [s[0]]) + s[1..];
    }
  }

  lemma RunEscapedChar(t: string, c: char)
    ensures Run(Scan([], InSingle(t)), EscapedChar(c)) == Scan([], InSingle(t + [c]))
  {
    if c == '\'' {
      RunEscapedQuote(t);
    } else {
      RunCons(Scan([], InSingle(t)), c, "");
      assert [c] + "" == [c];
    }
  }

  lemma RunQuoted(s: string)
    ensures Run(START, "'" + EscapeQuotes(s) + "'") == Scan([], Word(s))
  {
    RunConcat(START, "'" + EscapeQuotes(s), "'");
    RunConcat(START, "'", EscapeQuotes(s));
    RunQuoteMarks([], s);
    RunEscapeQuotes("", s);
    assert "" + s == s;
  }

  /** `split` undoes `quote` for every string. */
  lemma QuoteRoundTrip(s: string)
    ensures Split(Quote(s)) == Ok([s])
  {
    if AllSafe(s) {
      PlainWordExact(s);
    } else {
      RunQuoted(s);
      assert Wrapped(EscapeQuotes(s)) == "'" + EscapeQuotes(s) + "'";
      assert [] + [s] == [s];
    }
  }

  // ----- The other two ways to quote

  /** Between double quotes, with a backslash before what is special there. */
  function DoubleEscaped(s: string): string {
    if s == "" then "" else (if s[0] == '"' || s[0] == '\\' then ['\\', s[0]] else [s[0]]) + DoubleEscaped(s[1..])
  }

  lemma {:induction false} RunDoubleEscaped(t: string, s: string)
    ensures Run(Scan([], InDouble(t)), DoubleEscaped(s)) == Scan([], InDouble(t + s))
    decreases |s|
  {
    if s == "" {
      assert t + s == t;
    } else {
      var rest := DoubleEscaped(s[1..]);
      if s[0] == '"' || s[0] == '\\' {
        assert ['\\', s[0]] + rest == ['\\'] + ([s[0]] + rest);
        RunCons(Scan([], InDouble(t)), '\\', [s[0]] + rest);
        RunCons(Scan([], EscapeInDouble(t)), s[0], rest);
      } else {
        RunCons(Scan([], InDouble(t)), s[0], rest);
      }
      RunDoubleEscaped(t + [s[0]], s[1..]);
      assert t + s == (t + [s[0]]) + s[1..];
    }
  }

  lemma DoubleQuoteRoundTrip(s: string)
    ensures Split("\"" + DoubleEscaped(s) + "\"") == Ok([s])
  {
    RunCons(START, '"', DoubleEscaped(s) + "\"");
    assert ['"'] + (DoubleEscaped(s) + "\"") == "\"" + DoubleEscaped(s) + "\"";
    RunConcat(Scan([], InDouble("")), DoubleEscaped(s), "\"");
    RunDoubleEscaped("", s);
    assert "" + s == s;
    RunCons(Scan([], InDouble(s)), '"', "");
    assert ['"'] + "" == "\"" && [] + [s] == [s];
  }

  /** Before any other character a backslash between double quotes stays. */
  lemma BackslashStays(c: char)
    requires c != '"' && c != '\\'
    ensures Split("\"\\" + [c] + "\"") == Ok([['\\', c]])
  {
    assert "\"\\" + [c] + "\"" == ['"'] + (['\\'] + ([c] + (['"'] + "")));
    RunCons(START, '"', ['\\'] + ([c] + (['"'] + "")));
    RunCons(Scan([], InDouble("")), '\\', [c] + (['"'] + ""));
    RunCons(Scan([], EscapeInDouble("")), c, ['"'] + "");
    RunCons(Scan([], InDouble(['\\', c])), '"', "");
    assert "" + ['\\', c] == ['\\', c] && [] + [['\\', c]] == [['\\', c]];
  }

  /** Each character behind a backslash. */
  function Backslashed(s: string): string {
    if s == "" then "" else ['\\', s[0]] + Backslashed(s[1..])
  }

  lemma {:induction false} RunBackslashed(t: string, s: string)
    ensures Run(Scan([], Word(t)), Backslashed(s)) == Scan([], Word(t + s))
    decreases |s|
  {
    if s == "" {
      assert t + s == t;
    } else {
      var rest := Backslashed(s[1..]);
      assert ['\\', s[0]] + rest == ['\\'] + ([s[0]] + rest);
      RunCons(Scan([], Word(t)), '\\', [s[0]] + rest);
      RunCons(Scan([], Escape(t)), s[0], rest);
      RunBackslashed(t + [s[0]], s[1..]);
      assert t + s == (t + [s[0]]) + s[1..];
    }
  }

  lemma BackslashRoundTrip(s: string)
    requires s != ""
    ensures Split(Backslashed(s)) == Ok([s])
  {
    var rest := Backslashed(s[1..]);
    assert ['\\', s[0]] + rest == ['\\'] + ([s[0]] + rest);
    RunCons(START, '\\', [s[0]] + rest);
    RunCons(Scan([], Escape("")), s[0], rest);
    assert "" + [s[0]] == [s[0]];
    RunBackslashed([s[0]], s[1..]);
    assert [s[0]] + s[1..] == s && [] + [s] == [s];
  }

  lemma {:induction false} EscapeQuotesKeepsQuotes(s: string)
    ensures '\'' in EscapeQuotes(s) <==> '\'' in s
  {
    if s != "" {
      EscapeQuotesKeepsQuotes(s[1..]);
      if s[0] == '\'' {
        assert EscapeQuotes(s)[0] == '\'';
      } else {
        assert s == [s[0]] + s[1..];
      }
    }
  }

  /** `quote` answers without single quotes exactly for the safe, non-empty strings. */
  lemma QuoteIsBareExactly(s: string)
    ensures '\'' !in Quote(s) <==> AllSafe(s)
  {
    if !AllSafe(s) {
      assert Wrapped(EscapeQuotes(s))[0] == '\'';
    }
  }
}
