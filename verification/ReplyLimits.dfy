/** Replies the parser of `InferenceReply` does not cope with, and one of each kind. */
module ReplyLimits {
  import opened Wrappers
  import opened JsonText
  import opened Texts
  import opened InferenceReply

  // ----- A time-out that is only mentioned

  predicate PlainChar(c: char) {
    c >= ' ' && c != '"' && c != '\\' && c != '{'
  }

  predicate PlainText(t: string) {
    forall i | 0 <= i < |t| :: PlainChar(t[i])
  }

  /** An object with one text under one key. */
  function OneText(k: string, t: string): string {
    "{\"" + k + ("\":\"" + t + "\"}")
  }

  lemma {:induction false} RunPlainText(ts: seq<Token>, sofar: string, t: string)
    requires PlainText(t)
    ensures JsonText.Run(Scan(ts, InStr(sofar)), t) == Scan(ts, InStr(sofar + t))
    decreases |t|
  {
    if t == "" {
      assert sofar + t == sofar;
    } else {
      RunPlainText(ts, sofar + [t[0]], t[1..]);
      assert sofar + [t[0]] + t[1..] == sofar + t;
    }
  }

  lemma {:induction false} RunJoined(s: Scan, a: string, b: string)
    ensures JsonText.Run(s, a + b) == JsonText.Run(JsonText.Run(s, a), b)
    decreases |a|
  {
    if a == "" {
      assert a + b == b;
    } else {
      assert (a + b)[1..] == a[1..] + b;
      RunJoined(JsonText.Step(s, a[0]), a[1..], b);
    }
  }

  lemma {:induction false} PlainStringOk(t: string)
    requires PlainText(t)
    ensures StringOk(t)
  {
    if t != "" {
      PlainStringOk(t[1..]);
    }
  }

  /** From one state over a few characters to another. */
  lemma RunTwo(s: Scan, a: char, b: char)
    ensures JsonText.Run(s, [a, b]) == JsonText.Step(JsonText.Step(s, a), b)
  {
    var one, two := JsonText.Step(s, a), JsonText.Step(JsonText.Step(s, a), b);
    assert [a, b][1..] == [b] && [b][1..] == [];
    assert JsonText.Run(one, [b]) == JsonText.Run(two, []) == two;
  }

  lemma OneStep(s: Scan, a: char)
    ensures JsonText.Run(s, [a]) == JsonText.Step(s, a)
  {
    assert [a][1..] == [];
    assert JsonText.Run(JsonText.Step(s, a), []) == JsonText.Step(s, a);
  }

  /** A text in quotes is one token, and the character after it is read from the gap. */
  lemma RunQuoted(ts: seq<Token>, t: string, c: char)
    requires PlainText(t)
    ensures JsonText.Run(Scan(ts, Gap), "\"" + t + ['"', c]) == FromGap(ts + [Str(t)], c)
  {
    RunJoined(Scan(ts, Gap), "\"" + t, ['"', c]);
    RunJoined(Scan(ts, Gap), "\"", t);
    OneStep(Scan(ts, Gap), '"');
    RunPlainText(ts, "", t);
    assert "" + t == t;
    RunTwo(Scan(ts, InStr(t)), '"', c);
  }

  lemma OneTextParts(k: string, t: string)
    ensures OneText(k, t) == "{" + (("\"" + k + ['"', ':']) + ("\"" + t + ['"', '}']))
  {
  }

  lemma OneTextLoads(k: string, t: string)
    requires PlainText(k) && PlainText(t)
    ensures Loads(OneText(k, t)) == Some([Punct('{'), Str(k), Punct(':'), Str(t), Punct('}')])
  {
    OneTextParts(k, t);
    var first, second := "\"" + k + ['"', ':'], "\"" + t + ['"', '}'];
    RunJoined(JsonText.START, "{", first + second);
    OneStep(JsonText.START, '{');
    assert [] + [Punct('{')] == [Punct('{')];
    RunJoined(Scan([Punct('{')], Gap), first, second);
    RunQuoted([Punct('{')], k, ':');
    var colon := [Punct('{'), Str(k), Punct(':')];
    assert [Punct('{')] + [Str(k)] + [Punct(':')] == colon;
    RunQuoted(colon, t, '}');
    assert colon + [Str(t)] + [Punct('}')] == [Punct('{'), Str(k), Punct(':'), Str(t), Punct('}')];
    Accepted(k, t);
  }

  lemma AcceptText(t: string, rest: seq<Token>)
    requires PlainText(t) && Accepts(CommaOrEnd, [Obj], rest)
    ensures Accepts(Value, [Obj], [Str(t)] + rest)
  {
    PlainStringOk(t);
    assert ([Str(t)] + rest)[1..] == rest;
  }

  lemma AcceptKey(k: string, rest: seq<Token>)
    requires PlainText(k) && Accepts(Value, [Obj], rest)
    ensures Accepts(KeyOrEnd, [Obj], [Str(k)] + ([Punct(':')] + rest))
  {
    PlainStringOk(k);
    assert ([Punct(':')] + rest)[1..] == rest;
    assert Accepts(Colon, [Obj], [Punct(':')] + rest);
    assert ([Str(k)] + ([Punct(':')] + rest))[1..] == [Punct(':')] + rest;
  }

  lemma AcceptClose()
    ensures Accepts(CommaOrEnd, [Obj], [Punct('}')])
  {
    assert Pop([Obj]) == [] && [Punct('}')][1..] == [];
    assert Accepts(After([]), [], []);
  }

  lemma AcceptObject(rest: seq<Token>)
    requires Accepts(KeyOrEnd, [Obj], rest)
    ensures Accepts(Value, [], [Punct('{')] + rest)
  {
    assert [] + [Obj] == [Obj];
    assert ([Punct('{')] + rest)[1..] == rest;
  }

  lemma Accepted(k: string, t: string)
    requires PlainText(k) && PlainText(t)
    ensures Accepts(Value, [], [Punct('{'), Str(k), Punct(':'), Str(t), Punct('}')])
  {
    AcceptClose();
    AcceptText(t, [Punct('}')]);
    AcceptKey(k, [Str(t)] + [Punct('}')]);
    AcceptObject([Str(k)] + ([Punct(':')] + ([Str(t)] + [Punct('}')])));
    assert [Punct('{')] + ([Str(k)] + ([Punct(':')] + ([Str(t)] + [Punct('}')])))
        == [Punct('{'), Str(k), Punct(':'), Str(t), Punct('}')];
  }

  const TIMEOUT := "http/1.1 504"

  /** Wherever a text mentions the status, not followed by a letter, digit or underscore, it counts as a time-out. */
  lemma MentionTimesOut(before: string, after: string)
    requires after == "" || !WordChar(after[0])
    ensures TimedOut(before + (TIMEOUT + after))
  {
    var text := before + (TIMEOUT + after);
    assert text[|before|..] == TIMEOUT + after;
    StatusAt(TIMEOUT + after, after);
  }

  lemma StatusAt(s: string, after: string)
    requires s == TIMEOUT + after && (after == "" || !WordChar(after[0]))
    ensures TimeoutStatusAt(s)
  {
    assert TIMEOUT == "http/1." + "1" + " " + "504";
    assert s[..7] == "http/1.";
    assert s[7] == '1' && s[8] == ' ';
    var code := s[8..];
    assert code[1..] == s[9..] && s[9..][0] == '5';
    assert s[9..][..3] == "504";
    assert |s[9..]| > 3 ==> s[9..][3] == after[0];
  }

  const TYPE := ("Content-Type", "application/json")

  /** A successful reply whose body tells of an upstream time-out. */
  const MENTION := Reply("HTTP/1.1", "200 OK", [TYPE], OneText("error", TIMEOUT))

  lemma TextShape(k: string, t: string)
    requires PlainText(k) && PlainText(t)
    ensures var b := OneText(k, t);
            |b| >= 2 && b[0] == '{' && b[|b| - 1] == '}' && OneBraceLine(b)
  {
    var b := OneText(k, t);
    forall i | 0 < i < |b| ensures b[i] != '{' {
      if 2 <= i < 2 + |k| {
        assert b[i] == k[i - 2];
      } else if 5 + |k| <= i < 5 + |k| + |t| {
        assert b[i] == t[i - 5 - |k|];
      }
    }
  }

  lemma StatusIsPlain()
    ensures PlainText("error") && PlainText(TIMEOUT)
  {
  }

  lemma LowerSame(t: string)
    requires forall i | 0 <= i < |t| :: !('A' <= t[i] <= 'Z')
    ensures Lower(t) == t
  {
  }

  lemma TypeLowered()
    ensures Lower("Content-Type") == "content-type" && Lower("application/json") == "application/json"
  {
    LowerJoined("Content", "-Type");
    assert "Content" + "-Type" == "Content-Type" && "content" + "-type" == "content-type";
    assert Lower("Content") == "content" && Lower("-Type") == "-type";
    LowerSame("application/json");
  }

  lemma TypeText()
    ensures "content-type" + ": " + "application/json" == JSON_TYPE
  {
  }

  lemma TypeIsJsonHeader()
    ensures JsonHeader(TYPE)
  {
    TypeLowered();
    TypeText();
    LowerSame(": ");
    LowerJoined("Content-Type" + ": ", "application/json");
    LowerJoined("Content-Type", ": ");
    var text := Lower(HeaderLine(TYPE));
    assert text == JSON_TYPE;
    assert text[..|JSON_TYPE|] == text;
  }

  lemma TypeIsJson()
    ensures JsonHeader(TYPE) && IsName(TYPE.0) && IsValue(TYPE.1)
  {
    TypeIsJsonHeader();
    NamePlain("Content-Type");
    ValuePlain("application/json");
  }

  lemma NamePlain(t: string)
    requires t != "" && |t| != 6 && forall i | 0 <= i < |t| :: t[i] == '-' || 'A' <= t[i] <= 'z'
    ensures IsName(t)
  {
    assert t != "output";
  }

  lemma ValuePlain(t: string)
    requires t != "" && forall i | 0 <= i < |t| :: t[i] == '/' || 'a' <= t[i] <= 'z'
    ensures IsValue(t)
  {
  }

  lemma HeadIsPlain()
    ensures IsName("HTTP/1.1") && IsValue("200 OK")
  {
  }

  lemma OneHeader(protocol: string, status: string, body: string)
    requires IsName(protocol) && protocol[|protocol| - 1] != ':' && IsValue(status)
    requires |body| >= 2 && body[0] == '{' && body[|body| - 1] == '}' && Loads(body).Some?
    ensures WellFormed(Reply(protocol, status, [TYPE], body))
  {
    TypeIsJson();
    assert TYPE in [TYPE];
  }

  lemma MentionWellFormed()
    ensures WellFormed(MENTION)
  {
    StatusIsPlain();
    OneTextLoads("error", TIMEOUT);
    TextShape("error", TIMEOUT);
    HeadIsPlain();
    OneHeader("HTTP/1.1", "200 OK", OneText("error", TIMEOUT));
  }

  /** The well-formed reply that is not given back: a success, reported as a gateway time-out. */
  lemma MentionFails()
    ensures WellFormed(MENTION) && OneBraceLine(MENTION.body)
    ensures Parsed(Print(MENTION, "\n")) == Err(GatewayTimeout)
  {
    MentionWellFormed();
    StatusIsPlain();
    TextShape("error", TIMEOUT);
    var before := Block(Lines(MENTION), "\n") + "\n" + ("{\"" + "error" + "\":\"");
    assert Print(MENTION, "\n") == before + (TIMEOUT + "\"}");
    LowerJoined(before, TIMEOUT + "\"}");
    LowerJoined(TIMEOUT, "\"}");
    assert Lower(TIMEOUT) == TIMEOUT && Lower("\"}")[0] == '"';
    MentionTimesOut(Lower(before), Lower("\"}"));
  }

  // ----- A body with a further line that starts with a brace

  /** An object in an object, on a line of its own. */
  function Nested(k: string): string {
    "{" + (("\"" + k + ['"', ':']) + ("\n" + "{}}"))
  }

  const INNER := [Punct('{'), Punct('}'), Punct('}')]

  lemma RunInner(ts: seq<Token>)
    ensures JsonText.Run(Scan(ts, Gap), "\n" + "{}}") == Scan(ts + INNER, Gap)
  {
    RunJoined(Scan(ts, Gap), "\n", "{}}");
    OneStep(Scan(ts, Gap), '\n');
    assert "{}}" == ['{', '}'] + ['}'];
    RunJoined(Scan(ts, Gap), ['{', '}'], ['}']);
    RunTwo(Scan(ts, Gap), '{', '}');
    OneStep(Scan(ts + [Punct('{')] + [Punct('}')], Gap), '}');
    assert ts + [Punct('{')] + [Punct('}')] + [Punct('}')] == ts + INNER;
  }

  lemma InnerCloses()
    ensures Accepts(KeyOrEnd, [Obj, Obj], [Punct('}'), Punct('}')])
  {
    AcceptClose();
    assert [Punct('}'), Punct('}')][1..] == [Punct('}')] && Pop([Obj, Obj]) == [Obj];
    assert After([Obj]) == CommaOrEnd;
  }

  lemma AcceptInner()
    ensures Accepts(Value, [Obj], INNER)
  {
    InnerCloses();
    assert INNER[1..] == [Punct('}'), Punct('}')] && [Obj] + [Obj] == [Obj, Obj];
  }

  lemma NestedLoads(k: string)
    requires PlainText(k)
    ensures Loads(Nested(k)) == Some([Punct('{')] + ([Str(k)] + ([Punct(':')] + INNER)))
  {
    var first, second := "\"" + k + ['"', ':'], "\n" + "{}}";
    var colon := [Punct('{'), Str(k), Punct(':')];
    RunJoined(JsonText.START, "{", first + second);
    OneStep(JsonText.START, '{');
    assert [] + [Punct('{')] == [Punct('{')];
    RunJoined(Scan([Punct('{')], Gap), first, second);
    RunQuoted([Punct('{')], k, ':');
    assert [Punct('{')] + [Str(k)] + [Punct(':')] == colon;
    RunInner(colon);
    assert colon + INNER == [Punct('{')] + ([Str(k)] + ([Punct(':')] + INNER));
    AcceptInner();
    AcceptKey(k, INNER);
    AcceptObject([Str(k)] + ([Punct(':')] + INNER));
  }

  /** A reply whose body breaks the line before an inner object. */
  const BROKEN_LINE := Reply("HTTP/1.1", "200 OK", [TYPE], Nested("id"))

  lemma NestedShape(k: string)
    ensures var b := Nested(k);
            |b| >= 2 && b[0] == '{' && b[|b| - 1] == '}' && !OneBraceLine(b)
  {
    var b, i := Nested(k), |k| + 4;
    assert b[i] == '\n' && b[i + 1] == '{';
  }

  /** The well-formed reply that is not given back because its header part takes in the start of the body. */
  lemma BrokenLineFails()
    ensures WellFormed(BROKEN_LINE) && Parsed(Print(BROKEN_LINE, "\n")) != Ok(Expected(BROKEN_LINE))
  {
    assert PlainText("id");
    NestedLoads("id");
    NestedShape("id");
    HeadIsPlain();
    OneHeader("HTTP/1.1", "200 OK", Nested("id"));
    RoundTrip(BROKEN_LINE, "\n");
  }

  // ----- A reply that is no JSON by its type

  lemma {:induction false} TrimLeftSubset(s: string)
    ensures forall c | c in TrimLeft(s) :: c in s
  {
    if s != "" && Space(s[0]) {
      TrimLeftSubset(s[1..]);
    }
  }

  lemma StatusHasFive(s: string)
    ensures TimeoutStatusAt(s) ==> '5' in s
  {
    if TimeoutStatusAt(s) {
      var code := TrimLeft(s[8..]);
      TrimLeftSubset(s[8..]);
      assert code[..3][0] == '5';
      assert code[0] in code;
    }
  }

  lemma TimeOutHasFive(s: string)
    ensures TimedOut(s) ==> '5' in s
  {
    if TimedOut(s) {
      var i :| 0 <= i < |s| && TimeoutStatusAt(s[i..]);
      StatusHasFive(s[i..]);
    }
  }

  /** A reply of another content type: the empty line after the header, then a JSON list on the first of three lines. */
  const PLAIN := "HTTP/1.1 200 OK" + "\n" + ("\n" + ("[]" + "\n" + ("a" + "\n" + "b")))

  lemma PlainLines()
    ensures SplitLines(PLAIN) == ["HTTP/1.1 200 OK", "", "[]", "a", "b"]
  {
    HeadAndThree("HTTP/1.1 200 OK", "[]", "a", "b");
  }

  lemma HeadAndThree(head: string, a: string, b: string, c: string)
    requires OneLine(head) && OneLine(a) && OneLine(b) && |c| == 1 && OneLine(c)
    ensures SplitLines(head + "\n" + ("\n" + (a + "\n" + (b + "\n" + c)))) == [head, "", a, b, c]
  {
    ThreeLines(a, b, c);
    HeadThenBody(head, a + "\n" + (b + "\n" + c));
  }

  lemma HeadThenBody(head: string, body: string)
    requires OneLine(head)
    ensures SplitLines(head + "\n" + ("\n" + body)) == [head, ""] + SplitLines(body)
  {
    SplitOneLine(head, "\n", "\n" + body);
    SplitEmptyLine("\n", body);
    TwoFirst(head, "", SplitLines(body));
  }

  lemma TwoFirst(a: string, b: string, rest: seq<string>)
    ensures [a] + ([b] + rest) == [a, b] + rest
  {
  }

  lemma ThreeLines(a: string, b: string, c: string)
    requires OneLine(a) && OneLine(b) && |c| == 1 && OneLine(c)
    ensures SplitLines(a + "\n" + (b + "\n" + c)) == [a, b, c]
  {
    SplitOneLine(a, "\n", b + "\n" + c);
    SplitOneLine(b, "\n", c);
    LastLine(c);
  }

  lemma LastLine(t: string)
    requires |t| == 1 && !LineBreak(t[0])
    ensures SplitLines(t) == [t]
  {
    assert t[1..] == "";
    assert LineLength("") == 0 && LineLength(t) == 1;
    assert t[..1] == t;
  }

  lemma ListCloses()
    ensures Accepts(ValueOrEnd, [Arr], [Punct(']')])
  {
    assert Pop([Arr]) == [] && [Punct(']')][1..] == [];
    assert Accepts(After([]), [], []);
  }

  lemma AcceptList(rest: seq<Token>)
    requires Accepts(ValueOrEnd, [Arr], rest)
    ensures Accepts(Value, [], [Punct('[')] + rest)
  {
    assert [] + [Arr] == [Arr];
    assert ([Punct('[')] + rest)[1..] == rest;
  }

  lemma EmptyListLex()
    ensures Lex("[]") == Some([Punct('[')] + [Punct(']')])
  {
    RunTwo(JsonText.START, '[', ']');
    assert [] + [Punct('[')] == [Punct('[')];
  }

  lemma EmptyListLoads()
    ensures Loads("[]").Some?
  {
    EmptyListLex();
    ListCloses();
    AcceptList([Punct(']')]);
  }

  lemma PlainIsPlain()
    ensures '5' !in Lower(PLAIN) && !Contains(Lower(PLAIN), JSON_TYPE)
  {
    assert |PLAIN| < |JSON_TYPE|;
    ShortContainsNot(Lower(PLAIN), JSON_TYPE);
    assert forall i | 0 <= i < |PLAIN| :: PLAIN[i] != '5';
    assert forall i | 0 <= i < |PLAIN| :: Lower(PLAIN)[i] != '5';
  }

  lemma ShortContainsNot(t: string, part: string)
    requires |t| < |part|
    ensures !Contains(t, part)
  {
  }

  /** A reply whose JSON line is read once as JSON and once more as a header, which it cannot be. */
  lemma PlainFails()
    ensures Parsed(PLAIN) == Err(NotAHeader)
  {
    PlainLines();
    EmptyListLoads();
    PlainIsPlain();
    TimeOutHasFive(Lower(PLAIN));
    PlainReplyExact(PLAIN);
    var lines := AllButTwo(SplitLines(PLAIN));
    assert lines == ["HTTP/1.1 200 OK", "", "[]"];
    assert lines[2] == "[]" && Trim("[]") == "[]" by { TrimmedAlready("[]"); }
    assert !HeaderOrEmpty(lines[2]);
  }
}
