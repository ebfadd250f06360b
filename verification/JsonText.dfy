/**
 JSON text (RFC 8259) as far as compacting it matters: a lexer, the grammar over its tokens, and the
 proof that deleting line breaks together with the white space after them changes neither.
 The value of a JSON text is a function of its tokens, so the tokens stand for the parsed value.
 */
module JsonText {
  import opened Wrappers

  datatype Token = Punct(c: char) | Str(raw: string) | Scalar(raw: string)

  datatype State = Gap | InScalar(text: string) | InStr(text: string) | AfterBackslash(text: string) | Bad

  datatype Scan = Scan(tokens: seq<Token>, state: State)

  const START := Scan([], Gap)

  /** Insignificant white space (section 2 of RFC 8259). */
  predicate Blank(c: char) {
    c == ' ' || c == '\t' || c == '\n' || c == '\r'
  }

  predicate Structural(c: char) {
    c in "{}[]:,"
  }

  /** White space as Python's `str.isspace` and the `\s` of a text pattern see it. */
  predicate Space(c: char) {
    var n := c as int;
    9 <= n <= 13 || 28 <= n <= 32 || n == 0x85 || n == 0xA0 || n == 0x1680 || 0x2000 <= n <= 0x200A
    || n == 0x2028 || n == 0x2029 || n == 0x202F || n == 0x205F || n == 0x3000
  }

  function Step(s: Scan, c: char): Scan {
    match s.state
    case Gap => FromGap(s.tokens, c)
    case InScalar(t) =>
      if Blank(c) || Structural(c) || c == '"' then FromGap(s.tokens + [Scalar(t)], c)
      else s.(state := InScalar(t + [c]))
    case InStr(t) =>
      if c == '"' then Scan(s.tokens + [Str(t)], Gap)
      else if c == '\\' then s.(state := AfterBackslash(t + [c]))
      else if c < ' ' then s.(state := Bad)
      else s.(state := InStr(t + [c]))
    case AfterBackslash(t) => s.(state := if c < ' ' then Bad else InStr(t + [c]))
    case Bad => s
  }

  function FromGap(tokens: seq<Token>, c: char): Scan {
    if Blank(c) then Scan(tokens, Gap)
    else if Structural(c) then Scan(tokens + [Punct(c)], Gap)
    else if c == '"' then Scan(tokens, InStr(""))
    else Scan(tokens, InScalar([c]))
  }

  function Run(s: Scan, input: string): Scan
    decreases |input|
  {
    if input == "" then s else Run(Step(s, input[0]), input[1..])
  }

  function Finish(s: Scan): Option<seq<Token>> {
    match s.state
    case Gap => Some(s.tokens)
    case InScalar(t) => Some(s.tokens + [Scalar(t)])
    case _ => None
  }

  function Lex(input: string): Option<seq<Token>> {
    Finish(Run(START, input))
  }

  // ----- Grammar

  datatype Frame = Obj | Arr

  datatype Expect = Value | ValueOrEnd | Key | KeyOrEnd | Colon | CommaOrEnd | Done

  function After(stack: seq<Frame>): Expect {
    if stack == [] then Done else CommaOrEnd
  }

  /** Pushdown recogniser of section 2 of RFC 8259; scalars and escapes are checked token by token. */
  predicate Accepts(e: Expect, stack: seq<Frame>, ts: seq<Token>)
    decreases |ts|, 1
  {
    if ts == [] then e == Done
    else
      var t, rest := ts[0], ts[1..];
      match e
      case Value => AcceptsValue(stack, ts)
      case ValueOrEnd =>
        if t == Punct(']') && stack != [] then Accepts(After(Pop(stack)), Pop(stack), rest) else AcceptsValue(stack, ts)
      case Key => t.Str? && StringOk(t.raw) && Accepts(Colon, stack, rest)
      case KeyOrEnd =>
        if t == Punct('}') && stack != [] then Accepts(After(Pop(stack)), Pop(stack), rest)
        else t.Str? && StringOk(t.raw) && Accepts(Colon, stack, rest)
      case Colon => t == Punct(':') && Accepts(Value, stack, rest)
      case CommaOrEnd =>
        && stack != []
        && var top := stack[|stack| - 1];
           if t == Punct(',') then Accepts(if top.Obj? then Key else Value, stack, rest)
           else t == Punct(if top.Obj? then '}' else ']') && Accepts(After(Pop(stack)), Pop(stack), rest)
      case Done => false
  }

  predicate AcceptsValue(stack: seq<Frame>, ts: seq<Token>)
    requires ts != []
    decreases |ts|, 0
  {
    var t, rest := ts[0], ts[1..];
    match t
    case Punct(c) =>
      if c == '{' then Accepts(KeyOrEnd, stack + [Obj], rest)
      else c == '[' && Accepts(ValueOrEnd, stack + [Arr], rest)
    case Str(raw) => StringOk(raw) && Accepts(After(stack), stack, rest)
    case Scalar(raw) => ScalarOk(raw) && Accepts(After(stack), stack, rest)
  }

  function Pop(stack: seq<Frame>): seq<Frame>
    requires stack != []
  {
    stack[..|stack| - 1]
  }

  /** Escapes of a string token (section 7 of RFC 8259). */
  predicate StringOk(raw: string) {
    raw == ""
    || (raw[0] != '\\' && StringOk(raw[1..]))
    || (raw[0] == '\\' && |raw| >= 2 && raw[1] in "\"\\/bfnrt" && StringOk(raw[2..]))
    || (raw[0] == '\\' && |raw| >= 6 && raw[1] == 'u' && (forall i | 2 <= i < 6 :: HexDigit(raw[i]))
        && StringOk(raw[6..]))
  }

  predicate HexDigit(c: char) {
    Digit(c) || 'a' <= c <= 'f' || 'A' <= c <= 'F'
  }

  predicate Digit(c: char) {
    '0' <= c <= '9'
  }

  /** Literals and numbers, with the three extra constants Python's parser takes. */
  predicate ScalarOk(raw: string) {
    raw == "true" || raw == "false" || raw == "null" || raw == "NaN" || raw == "Infinity" || raw == "-Infinity"
    || NumberOk(raw)
  }

  predicate NumberOk(raw: string) {
    var unsigned := if raw != "" && raw[0] == '-' then raw[1..] else raw;
    && unsigned != "" && Digit(unsigned[0])
    && var afterInt := if unsigned[0] == '0' then unsigned[1..] else SkipDigits(unsigned);
       var afterFrac := if |afterInt| >= 2 && afterInt[0] == '.' && Digit(afterInt[1]) then SkipDigits(afterInt[1..])
           else afterInt;
       afterFrac == "" || ExponentOk(afterFrac)
  }

  predicate ExponentOk(s: string)
    requires s != ""
  {
    && (s[0] == 'e' || s[0] == 'E')
    && var digits := if |s| >= 2 && (s[1] == '+' || s[1] == '-') then s[2..] else s[1..];
       digits != "" && SkipDigits(digits) == ""
  }

  function SkipDigits(s: string): string {
    if s != "" && Digit(s[0]) then SkipDigits(s[1..]) else s
  }

  /** What `json.loads` makes of a text: its value, by way of its tokens, or nothing. */
  function Loads(s: string): Option<seq<Token>> {
    if Lex(s).Some? && Accepts(Value, [], Lex(s).value) then Lex(s) else None
  }

  // ----- Compaction

  /** `re.sub(r"\n\s*", "", s)`; `skipping` while inside a match. */
  function Compact(s: string, skipping: bool): string {
    if s == "" then ""
    else if s[0] == '\n' || (skipping && Space(s[0])) then Compact(s[1..], true)
    else [s[0]] + Compact(s[1..], false)
  }

  /** The two facts about the tokens of a JSON text that compaction needs. */
  predicate Separated(ts: seq<Token>) {
    && (forall i | 0 <= i < |ts| :: ts[i].Scalar? ==> ScalarOk(ts[i].raw))
    && (forall i | 0 <= i < |ts| - 1 :: ts[i].Scalar? ==> !ts[i + 1].Scalar?)
  }

  /** The grammar never puts two scalars side by side. */
  lemma {:induction false} AcceptedIsSeparated(e: Expect, stack: seq<Frame>, ts: seq<Token>)
    requires Accepts(e, stack, ts)
    ensures Separated(ts)
    ensures ts != [] && ts[0].Scalar? ==> e.Value? || e.ValueOrEnd?
    decreases |ts|
  {
    if ts != [] {
      var next, deeper := NextExpect(e, stack, ts);
      AcceptedIsSeparated(next, deeper, ts[1..]);
      assert forall i | 0 < i < |ts| :: ts[i] == ts[1..][i - 1];
    }
  }

  lemma NextExpect(e: Expect, stack: seq<Frame>, ts: seq<Token>) returns (next: Expect, deeper: seq<Frame>)
    requires ts != [] && Accepts(e, stack, ts)
    ensures Accepts(next, deeper, ts[1..])
    ensures ts[0].Scalar? ==> (e.Value? || e.ValueOrEnd?) && ScalarOk(ts[0].raw) && (next.Done? || next.CommaOrEnd?)
  {
    var t := ts[0];
    var closes := stack != [] && (t == Punct(']') || t == Punct('}'));
    if closes && (e.ValueOrEnd? || e.KeyOrEnd? || e.CommaOrEnd?) {
      next, deeper := After(Pop(stack)), Pop(stack);
    } else if e.Value? || e.ValueOrEnd? {
      match t
      case Punct(c) =>
        next := if c == '{' then KeyOrEnd else ValueOrEnd;
        deeper := stack + [if c == '{' then Obj else Arr];
      case _ => next, deeper := After(stack), stack;
    } else {
      next := if e.Colon? then Value else if e.CommaOrEnd? then (if stack[|stack| - 1].Obj? then Key else Value)
          else Colon;
      deeper := stack;
    }
  }

  /** Finished tokens never influence the rest of a run. */
  lemma {:induction false} RunKeepsTokens(ts: seq<Token>, s: Scan, input: string)
    ensures Run(Scan(ts + s.tokens, s.state), input)
         == Scan(ts + Run(s, input).tokens, Run(s, input).state)
    decreases |input|
  {
    if input != "" {
      var t := Step(s, input[0]);
      assert forall u: seq<Token> :: ts + (s.tokens + u) == (ts + s.tokens) + u;
      if s.state.InScalar? {
        var done := [Scalar(s.state.text)];
        assert ts + ((s.tokens + done) + [Punct(input[0])]) == ((ts + s.tokens) + done) + [Punct(input[0])];
      }
      assert Step(Scan(ts + s.tokens, s.state), input[0]) == Scan(ts + t.tokens, t.state);
      RunKeepsTokens(ts, t, input[1..]);
    }
  }

  /** A scalar under way becomes the next token. */
  lemma {:induction false} ScalarComesNext(s: Scan, input: string)
    requires s.state.InScalar? && Finish(Run(s, input)).Some?
    ensures var ts := Finish(Run(s, input)).value;
            |ts| > |s.tokens| && ts[..|s.tokens|] == s.tokens
            && ts[|s.tokens|].Scalar? && s.state.text <= ts[|s.tokens|].raw
    decreases |input|
  {
    if input != "" {
      var t := Step(s, input[0]);
      if t.state.InScalar? && t.tokens == s.tokens {
        ScalarComesNext(t, input[1..]);
      } else {
        RunKeepsTokens(t.tokens, Scan([], t.state), input[1..]);
        assert t.tokens + [] == t.tokens;
      }
    }
  }

  lemma ScalarStart(raw: string)
    requires ScalarOk(raw)
    ensures raw != "" && !Space(raw[0])
  {
  }

  /** How the scan of the original relates to the scan of the compacted text: they agree, or a line
      break has ended a scalar that is still under way in the compacted text. */
  predicate Related(orig: Scan, comp: Scan, skipping: bool) {
    && (skipping ==> orig.state.Gap? || orig.state.Bad?)
    && (orig == comp
        || (skipping && orig.state.Gap? && comp.state.InScalar?
            && orig.tokens == comp.tokens + [Scalar(comp.state.text)]))
  }

  lemma {:induction false} BadStays(s: Scan, input: string)
    requires s.state.Bad?
    ensures Finish(Run(s, input)).None?
    decreases |input|
  {
    if input != "" {
      BadStays(s, input[1..]);
    }
  }

  lemma AdjacentScalars(ts: seq<Token>, done: seq<Token>)
    requires done != [] && done[|done| - 1].Scalar?
    requires |ts| > |done| && ts[..|done|] == done && ts[|done|].Scalar?
    ensures !Separated(ts)
  {
    var k := |done| - 1;
    assert ts[k] == ts[..|done|][k];
  }

  lemma {:induction false} CompactSimulates(orig: Scan, comp: Scan, skipping: bool, input: string)
    requires Related(orig, comp, skipping)
    requires Finish(Run(orig, input)).Some? && Separated(Finish(Run(orig, input)).value)
    ensures Finish(Run(comp, Compact(input, skipping))) == Finish(Run(orig, input))
    decreases |input|
  {
    if input == "" {
    } else if orig.state.Bad? {
      BadStays(orig, input);
    } else {
      var c, rest := input[0], input[1..];
      var next := Step(orig, c);
      if c == '\n' {
        if next.state.Bad? {
          BadStays(next, rest);
        }
        CompactSimulates(next, comp, true, rest);
      } else if skipping && Space(c) {
        if next.state.InScalar? {
          ScalarComesNext(next, rest);
          ScalarStart(Finish(Run(next, rest)).value[|next.tokens|].raw);
        }
        CompactSimulates(next, comp, true, rest);
      } else {
        if orig != comp && next.state.InScalar? {
          ScalarComesNext(next, rest);
          AdjacentScalars(Finish(Run(next, rest)).value, next.tokens);
          assert false;
        }
        assert (([c] + Compact(rest, false))[1..]) == Compact(rest, false);
        CompactSimulates(next, Step(comp, c), false, rest);
      }
    }
  }

  /** Compaction keeps the value of every JSON text. */
  lemma CompactKeepsValue(s: string)
    requires Loads(s).Some?
    ensures Loads(Compact(s, false)) == Loads(s)
  {
    AcceptedIsSeparated(Value, [], Lex(s).value);
    CompactSimulates(START, START, false, s);
  }

  lemma TwoLinesLex()
    ensures Lex("1\n2") == Some([Scalar("1"), Scalar("2")])
  {
    var lines := "1\n2";
    assert lines[1..] == "\n2" && lines[1..][1..] == "2" && lines[1..][1..][1..] == "";
    var one, two := Scan([], InScalar("1")), Scan([Scalar("1")], InScalar("2"));
    assert Run(START, lines) == Run(one, lines[1..]) == Run(Scan([Scalar("1")], Gap), "2") == Run(two, "") == two;
    assert [Scalar("1")] + [Scalar("2")] == [Scalar("1"), Scalar("2")];
  }

  lemma TwoLinesCompact()
    ensures Compact("1\n2", false) == "12"
  {
    assert "1\n2"[1..] == "\n2" && "\n2"[1..] == "2" && "2"[1..] == "";
    assert Compact("2", true) == "2";
  }

  lemma TwelveLex()
    ensures Lex("12") == Some([Scalar("12")])
  {
    assert "12"[1..] == "2" && "2"[1..] == "";
    var one := Scan([], InScalar("1"));
    assert Run(START, "12") == Run(one, "2");
    assert "1" + ['2'] == "12";
    assert Step(one, '2') == Scan([], InScalar("12"));
    assert Run(one, "2") == Run(Step(one, '2'), "") == Step(one, '2');
    assert [] + [Scalar("12")] == [Scalar("12")];
  }

  lemma TwelveIsNumber()
    ensures NumberOk("12")
  {
    assert "12"[1..] == "2" && "2"[1..] == "";
    assert SkipDigits("") == "" && SkipDigits("2") == "";
  }

  /** Only JSON is safe: two numbers on two lines are not JSON, but compaction joins them into one. */
  lemma CompactRepairs()
    ensures Loads("1\n2").None? && Loads(Compact("1\n2", false)) == Some([Scalar("12")])
  {
    TwoLinesLex();
    TwoLinesCompact();
    TwelveLex();
    TwelveIsNumber();
    assert [Scalar("1"), Scalar("2")][1..] == [Scalar("2")];
    assert [Scalar("12")][1..] == [];
  }
}
