/**
 The reply parser of `UserInference.run_inference_flow` for HTTP protocols, proved to undo the printing
 of an HTTP/1.1 reply (sections 2.1 and 5 of RFC 9112) with a JSON body.
 */
module InferenceReply {
  import opened Wrappers
  import opened JsonText
  import opened Texts

  datatype Field = Text(text: string) | Output(value: seq<Token>)

  datatype Failure = GatewayTimeout | NotAHeader | NoLines

  type Fields = map<string, Field>

  // ----- Text helpers of the library

  /** Line boundaries of Python's `str.splitlines`. */
  predicate LineBreak(c: char) {
    var n := c as int;
    10 <= n <= 13 || 28 <= n <= 30 || n == 0x85 || n == 0x2028 || n == 0x2029
  }

  function LineLength(s: string): (n: nat)
    ensures n <= |s|
  {
    if s == "" || LineBreak(s[0]) then 0 else 1 + LineLength(s[1..])
  }

  function BreakLength(s: string): (n: nat)
    requires s != ""
    ensures 1 <= n <= |s|
  {
    if |s| >= 2 && s[0] == '\r' && s[1] == '\n' then 2 else 1
  }

  function SplitLines(s: string): seq<string>
    decreases |s|
  {
    if s == "" then []
    else
      var n := LineLength(s);
      [s[..n]] + if n == |s| then [] else SplitLines(s[n + BreakLength(s[n..])..])
  }

  function TrimLeft(s: string): string {
    if s != "" && Space(s[0]) then TrimLeft(s[1..]) else s
  }

  function TrimRight(s: string): string {
    if s != "" && Space(s[|s| - 1]) then TrimRight(s[..|s| - 1]) else s
  }

  function Trim(s: string): string {
    TrimRight(TrimLeft(s))
  }

  /** `re.search(r"http/1\.\d\s+504\b", out.lower())`. */
  predicate TimedOut(lower: string) {
    exists i | 0 <= i < |lower| :: TimeoutStatusAt(lower[i..])
  }

  predicate TimeoutStatusAt(s: string) {
    && |s| > 9 && s[..7] == "http/1." && Digit(s[7]) && Space(s[8])
    && var code := TrimLeft(s[8..]);
       |code| >= 3 && code[..3] == "504" && (|code| == 3 || !WordChar(code[3]))
  }

  predicate WordChar(c: char) {
    Digit(c) || 'a' <= c <= 'z' || 'A' <= c <= 'Z' || c == '_'
  }

  /** `re.split(": | ", line, maxsplit=1)` when it yields two parts. */
  function SplitHeader(line: string): Option<(string, string)> {
    if line == "" then None
    else if line[0] == ' ' then Some(("", line[1..]))
    else if |line| >= 2 && line[0] == ':' && line[1] == ' ' then Some(("", line[2..]))
    else match SplitHeader(line[1..])
         case None => None
         case Some(parts) => Some(([line[0]] + parts.0, parts.1))
  }

  /** Last place where a line starting with `{` follows a line feed: what the greedy first group ends at. */
  function LastBreakBrace(s: string): (r: Option<nat>)
    ensures r.Some? ==> r.value + 1 < |s| && s[r.value] == '\n' && s[r.value + 1] == '{'
  {
    if |s| < 2 then None
    else if s[|s| - 2] == '\n' && s[|s| - 1] == '{' then Some(|s| - 2)
    else LastBreakBrace(s[..|s| - 1])
  }

  function FirstIndex(s: string, c: char): (i: nat)
    ensures i <= |s| && c !in s[..i] && (i < |s| ==> s[i] == c)
  {
    if s == "" || s[0] == c then 0
    else
      var i := 1 + FirstIndex(s[1..], c);
      assert s[..i] == [s[0]] + s[1..][..i - 1];
      i
  }

  function LastIndex(s: string, c: char): (i: int)
    ensures -1 <= i < |s| && (i >= 0 ==> s[i] == c)
  {
    if s == "" then -1 else if s[|s| - 1] == c then |s| - 1 else LastIndex(s[..|s| - 1], c)
  }

  /** From the first opening to the last closing brace. */
  function Braced(out: string): Option<string> {
    var first, last := FirstIndex(out, '{'), LastIndex(out, '}');
    if first < last then Some(out[first..last + 1]) else None
  }

  // ----- The parser

  const JSON_TYPE := "content-type: application/json"

  function HeaderFields(lines: seq<string>, known: Fields): Result<Fields, Failure> {
    if lines == [] then Ok(known)
    else if lines[0] == "" then HeaderFields(lines[1..], known)
    else match SplitHeader(Trim(lines[0]))
         case None => Err(NotAHeader)
         case Some(parts) => HeaderFields(lines[1..], known[parts.0 := Text(parts.1)])
  }

  function Parsed(out: string): Result<Fields, Failure> {
    if TimedOut(Lower(out)) then Err(GatewayTimeout)
    else if Contains(Lower(out), JSON_TYPE) then
      match LastBreakBrace(out)
      case None => Ok(map[])
      case Some(i) =>
        var lines := SplitLines(out[..i]);
        if Braced(out).None? then HeaderFields(lines, map[])
        else match Loads(Compact(Braced(out).value, false))
             case None => Ok(map["output" := Text(out)])
             case Some(v) => HeaderFields(lines, map["output" := Output(v)])
    else
      var all := SplitLines(out);
      var lines := if |all| <= 2 then [] else all[..|all| - 2];
      if lines == [] then Err(NoLines)
      else match Loads(lines[|lines| - 1])
           case None => Ok(map["output" := Text(out)])
           case Some(v) => HeaderFields(lines, map["output" := Output(v)])
  }

  /** What the caller gets: a dictionary of fields, or over gRPC the value itself. */
  datatype Answer = Dict(fields: Fields) | Json(value: seq<Token>)

  function Answered(out: string, tcp: bool): Result<Answer, Failure> {
    if tcp then
      match Parsed(out)
      case Ok(fields) => Ok(Dict(fields))
      case Err(e) => Err(e)
    else if TimedOut(Lower(out)) then Err(GatewayTimeout)
    else match Loads(out)
         case Some(v) => Ok(Json(v))
         case None => Ok(Dict(map["output" := Text(out)]))
  }

  /** The loop over the header lines. */
  method AddHeaders(lines: seq<string>, known: Fields) returns (r: Result<Fields, Failure>)
    ensures r == HeaderFields(lines, known)
  {
    var response := known;
    var i := 0;
    while i < |lines|
      invariant 0 <= i <= |lines|
      invariant HeaderFields(lines[i..], response) == HeaderFields(lines, known)
    {
      if lines[i] != "" {
        var parts := SplitHeader(Trim(lines[i]));
        if parts.None? {
          return Err(NotAHeader);
        }
        response := response[parts.value.0 := Text(parts.value.1)];
      }
      i := i + 1;
    }
    return Ok(response);
  }

  /** The reply of either protocol family. */
  method ParseReply(out: string, tcp: bool) returns (r: Result<Answer, Failure>)
    ensures r == Answered(out, tcp)
  {
    var lower := Lower(out);
    if TimedOut(lower) {
      return Err(GatewayTimeout);
    }
    if !tcp {
      var value := Loads(out);
      return Ok(if value.Some? then Json(value.value) else Dict(map["output" := Text(out)]));
    }
    var response: Fields := map[];
    var lines: seq<string> := [];
    if Contains(lower, JSON_TYPE) {
      var head := LastBreakBrace(out);
      if head.Some? {
        lines := SplitLines(out[..head.value]);
        var text := Braced(out);
        if text.Some? {
          var value := Loads(Compact(text.value, false));
          if value.None? {
            return Ok(Dict(map["output" := Text(out)]));
          }
          response := response["output" := Output(value.value)];
        }
      }
    } else {
      var all := SplitLines(out);
      lines := if |all| <= 2 then [] else all[..|all| - 2];
      if lines == [] {
        return Err(NoLines);
      }
      var value := Loads(lines[|lines| - 1]);
      if value.None? {
        return Ok(Dict(map["output" := Text(out)]));
      }
      response := response["output" := Output(value.value)];
    }
    var fields := AddHeaders(lines, response);
    if fields.Err? {
      return Err(fields.error);
    }
    r := Ok(Dict(fields.value));
  }

  // ----- Printing a reply

  datatype Reply = Reply(protocol: string, status: string, headers: seq<(string, string)>, body: string)

  function HeaderLine(h: (string, string)): string {
    h.0 + ": " + h.1
  }

  function HeaderLines(hs: seq<(string, string)>): seq<string> {
    if hs == [] then [] else [HeaderLine(hs[0])] + HeaderLines(hs[1..])
  }

  function Lines(r: Reply): seq<string> {
    [r.protocol + " " + r.status] + HeaderLines(r.headers)
  }

  function Block(lines: seq<string>, eol: string): string {
    if lines == [] then "" else lines[0] + eol + Block(lines[1..], eol)
  }

  function Print(r: Reply, eol: string): string {
    Block(Lines(r), eol) + eol + r.body
  }

  predicate Eol(eol: string) {
    eol == "\r\n" || eol == "\n"
  }

  /** A field name or protocol version: not empty, no white space. */
  predicate IsName(s: string) {
    s != "" && s != "output" && forall c | c in s :: !Space(c) && !LineBreak(c) && c != '{'
  }

  /** A field value or status: not empty, on one line, without a brace, not ending in white space. */
  predicate IsValue(s: string) {
    && s != "" && !Space(s[|s| - 1])
    && forall c | c in s :: !LineBreak(c) && c != '{'
  }

  predicate JsonHeader(h: (string, string)) {
    |HeaderLine(h)| >= |JSON_TYPE| && Lower(HeaderLine(h))[..|JSON_TYPE|] == JSON_TYPE
  }

  predicate WellFormed(r: Reply) {
    && IsName(r.protocol) && r.protocol[|r.protocol| - 1] != ':' && IsValue(r.status)
    && (forall h | h in r.headers :: IsName(h.0) && IsValue(h.1))
    && (exists h :: h in r.headers && JsonHeader(h))
    && |r.body| >= 2 && r.body[0] == '{' && r.body[|r.body| - 1] == '}'
    && Loads(r.body).Some?
  }

  /** No line but the first starts with an opening brace. */
  predicate OneBraceLine(body: string) {
    forall i | 0 <= i < |body| - 1 :: body[i] == '\n' ==> body[i + 1] != '{'
  }

  /** Later fields override earlier ones of the same name. */
  function Assoc(pairs: seq<(string, string)>, known: Fields): Fields {
    if pairs == [] then known else Assoc(pairs[1..], known[pairs[0].0 := Text(pairs[0].1)])
  }

  lemma {:induction false} AssocLastWins(pairs: seq<(string, string)>, known: Fields, i: nat)
    requires i < |pairs| && forall j | i < j < |pairs| :: pairs[j].0 != pairs[i].0
    ensures pairs[i].0 in Assoc(pairs, known) && Assoc(pairs, known)[pairs[i].0] == Text(pairs[i].1)
    decreases |pairs|
  {
    var next := known[pairs[0].0 := Text(pairs[0].1)];
    if i > 0 {
      AssocLastWins(pairs[1..], next, i - 1);
    } else {
      assert forall j | 0 <= j < |pairs[1..]| :: pairs[1..][j] == pairs[j + 1];
      AssocKeeps(pairs[1..], next, pairs[0].0);
    }
  }

  lemma {:induction false} AssocKeeps(pairs: seq<(string, string)>, known: Fields, name: string)
    requires forall p | p in pairs :: p.0 != name
    ensures name in Assoc(pairs, known) <==> name in known
    ensures name in known ==> Assoc(pairs, known)[name] == known[name]
    decreases |pairs|
  {
    if pairs != [] {
      AssocKeeps(pairs[1..], known[pairs[0].0 := Text(pairs[0].1)], name);
    }
  }

  // ----- Proof of the round trip

  lemma {:induction false} TrimmedAlready(s: string)
    requires s != "" && !Space(s[0]) && !Space(s[|s| - 1])
    ensures Trim(s) == s
  {
  }

  lemma {:induction false} SplitAfterName(name: string, separator: string, value: string)
    requires name != "" && forall c | c in name :: c != ' '
    requires separator == ": " || (separator == " " && name[|name| - 1] != ':')
    ensures SplitHeader(name + separator + value) == Some((name, value))
  {
    var line := name + separator + value;
    assert line[0] == name[0] && name[0] in name;
    assert line[1..] == name[1..] + separator + value;
    if |name| == 1 {
      assert name[1..] == "";
      assert name == [name[0]] && [name[0]] + "" == name;
      assert line[1..] == separator + value;
      if separator == ": " {
        assert line[1..][0] == ':' && line[1..][1] == ' ' && line[1..][2..] == value;
      } else {
        assert line[1..][0] == ' ' && line[1..][1..] == value;
      }
      assert SplitHeader(line[1..]) == Some(("", value));
    } else {
      assert line[1] == name[1] && name[1] in name;
      assert forall c | c in name[1..] :: c in name;
      SplitAfterName(name[1..], separator, value);
      assert [name[0]] + name[1..] == name;
    }
  }

  lemma NameLine(name: string, separator: string, value: string)
    requires IsName(name) && IsValue(value)
    requires separator == ": " || (separator == " " && name[|name| - 1] != ':')
    ensures var line := name + separator + value;
            Trim(line) == line && SplitHeader(line) == Some((name, value)) && line != ""
  {
    var line := name + separator + value;
    assert name[0] in name && line[0] == name[0] && line[|line| - 1] == value[|value| - 1];
    assert forall c | c in name :: c != ' ';
    TrimmedAlready(line);
    SplitAfterName(name, separator, value);
  }

  lemma HeaderStep(h: (string, string), lines: seq<string>, known: Fields)
    requires IsName(h.0) && IsValue(h.1) && lines != [] && lines[0] == HeaderLine(h)
    ensures HeaderFields(lines, known) == HeaderFields(lines[1..], known[h.0 := Text(h.1)])
  {
    NameLine(h.0, ": ", h.1);
  }

  lemma {:induction false} HeaderFieldsOfLines(hs: seq<(string, string)>, tail: seq<string>, known: Fields)
    requires forall h | h in hs :: IsName(h.0) && IsValue(h.1)
    requires tail == [] || tail == [""]
    ensures HeaderFields(HeaderLines(hs) + tail, known) == Ok(Assoc(hs, known))
    decreases |hs|
  {
    if hs == [] {
      assert HeaderLines(hs) + tail == tail;
      assert tail != [] ==> tail[1..] == [];
    } else {
      var lines := HeaderLines(hs) + tail;
      assert hs[0] in hs;
      assert lines[0] == HeaderLine(hs[0]) && lines[1..] == HeaderLines(hs[1..]) + tail;
      HeaderStep(hs[0], lines, known);
      HeaderFieldsOfLines(hs[1..], tail, known[hs[0].0 := Text(hs[0].1)]);
    }
  }

  predicate OneLine(s: string) {
    s != "" && forall c | c in s :: !LineBreak(c) && c != '{'
  }

  lemma {:induction false} LineLengthOf(line: string, rest: string)
    requires forall c | c in line :: !LineBreak(c)
    requires rest == "" || LineBreak(rest[0])
    ensures LineLength(line + rest) == |line|
  {
    if line == "" {
      assert line + rest == rest;
    } else {
      assert line[0] in line && (line + rest)[1..] == line[1..] + rest;
      LineLengthOf(line[1..], rest);
    }
  }

  lemma SplitOneLine(line: string, eol: string, rest: string)
    requires Eol(eol) && OneLine(line)
    ensures SplitLines(line + eol + rest) == [line] + SplitLines(rest)
  {
    CutLine(line, eol, rest);
    assert eol[0] == '\r' || eol[0] == '\n';
    LineLengthOf(line, eol + rest);
  }

  lemma CutLine(line: string, eol: string, rest: string)
    ensures var s := line + eol + rest;
            && s == line + (eol + rest)
            && s[..|line|] == line && s[|line|..] == eol + rest && s[|line| + |eol|..] == rest
  {
  }

  lemma SplitCarriageReturn()
    ensures SplitLines("\r") == [""]
  {
    assert "\r"[1..] == "" && SplitLines("") == [];
    assert LineLength("\r") == 0 && BreakLength("\r") == 1;
  }

  function LastEmpty(eol: string): seq<string> {
    if eol == "\n" then [] else [""]
  }

  lemma SplitEmptyBlock(eol: string)
    requires Eol(eol)
    ensures SplitLines(eol[..|eol| - 1]) == LastEmpty(eol)
  {
    assert eol == "\n" ==> eol[..|eol| - 1] == "";
    assert eol == "\r\n" ==> eol[..|eol| - 1] == "\r";
    SplitCarriageReturn();
  }

  lemma HeadAndTail(lines: seq<string>, more: seq<string>)
    requires lines != []
    ensures lines + more == [lines[0]] + (lines[1..] + more)
  {
  }

  lemma BlockTail(line: string, block: string, last: string)
    ensures line + block + last == line + (block + last)
  {
  }

  /** Text before the brace: the header block and what is left of the empty line's end. */
  lemma {:induction false} SplitBlock(lines: seq<string>, eol: string, last: string)
    requires Eol(eol) && forall l | l in lines :: OneLine(l)
    ensures SplitLines(Block(lines, eol) + last) == lines + SplitLines(last)
  {
    if lines == [] {
      assert Block(lines, eol) + last == last;
    } else {
      var rest := Block(lines[1..], eol) + last;
      assert lines[0] in lines;
      BlockTail(lines[0] + eol, Block(lines[1..], eol), last);
      SplitOneLine(lines[0], eol, rest);
      SplitBlock(lines[1..], eol, last);
      HeadAndTail(lines, SplitLines(last));
    }
  }

  lemma {:induction false} BlockHasNoBrace(lines: seq<string>, eol: string)
    requires Eol(eol) && forall l | l in lines :: OneLine(l)
    ensures '{' !in Block(lines, eol)
  {
    if lines != [] {
      assert lines[0] in lines;
      assert '{' !in eol;
      BlockHasNoBrace(lines[1..], eol);
    }
  }

  lemma {:induction false} BlockShows(lines: seq<string>, eol: string, k: nat) returns (before: string, after: string)
    requires k < |lines|
    ensures Block(lines, eol) == before + lines[k] + after
  {
    if k == 0 {
      before, after := "", eol + Block(lines[1..], eol);
    } else {
      before, after := BlockShows(lines[1..], eol, k - 1);
      before := lines[0] + eol + before;
    }
  }

  lemma {:induction false} HeaderLinesAt(hs: seq<(string, string)>, k: nat)
    requires k < |hs|
    ensures |HeaderLines(hs)| == |hs| && HeaderLines(hs)[k] == HeaderLine(hs[k])
  {
    if k > 0 {
      HeaderLinesAt(hs[1..], k - 1);
    } else if |hs| > 1 {
      HeaderLinesAt(hs[1..], 0);
    }
  }

  lemma {:induction false} HeaderLinesOneLine(hs: seq<(string, string)>)
    requires forall h | h in hs :: IsName(h.0) && IsValue(h.1)
    ensures forall l | l in HeaderLines(hs) :: OneLine(l)
  {
    if hs != [] {
      HeaderLinesOneLine(hs[1..]);
    }
  }

  lemma PrintShowsType(r: Reply, eol: string)
    requires WellFormed(r)
    ensures Contains(Lower(Print(r, eol)), JSON_TYPE)
  {
    var h :| h in r.headers && JsonHeader(h);
    var k :| 0 <= k < |r.headers| && r.headers[k] == h;
    HeaderLinesAt(r.headers, k);
    var before, after := BlockShows(Lines(r), eol, k + 1);
    assert Print(r, eol) == before + HeaderLine(h) + (after + eol + r.body) by {
      ShownInPrint(before, HeaderLine(h), after, eol, r.body);
    }
    LineShows(before, HeaderLine(h), after + eol + r.body, JSON_TYPE);
  }

  lemma ShownInPrint(before: string, line: string, after: string, eol: string, body: string)
    ensures before + line + after + eol + body == before + line + (after + eol + body)
  {
  }

  lemma LineShows(before: string, line: string, after: string, part: string)
    requires |line| >= |part| && Lower(line)[..|part|] == part
    ensures Contains(Lower(before + line + after), part)
  {
    var out := before + line + after;
    LowerJoined(before + line, after);
    LowerJoined(before, line);
    assert Lower(out)[|before|..] == Lower(line) + Lower(after);
    assert (Lower(line) + Lower(after))[..|part|] == Lower(line)[..|part|];
    ContainsLater(Lower(out), part, |before|);
  }

  lemma FirstIndexIs(s: string, c: char, i: nat)
    requires i < |s| && s[i] == c && c !in s[..i]
    ensures FirstIndex(s, c) == i
  {
    var f := FirstIndex(s, c);
    assert forall k | 0 <= k < i :: s[..i][k] == s[k];
    assert forall k | 0 <= k < f :: s[..f][k] == s[k];
  }

  lemma LastIndexIsEnd(s: string, c: char)
    requires s != "" && s[|s| - 1] == c
    ensures LastIndex(s, c) == |s| - 1
  {
  }

  lemma {:induction false} LastBreakBraceIs(s: string, i: nat)
    requires i + 1 < |s| && s[i] == '\n' && s[i + 1] == '{'
    requires forall k | i < k < |s| - 1 :: s[k] == '\n' ==> s[k + 1] != '{'
    ensures LastBreakBrace(s) == Some(i)
    decreases |s|
  {
    if i + 2 < |s| {
      assert s[|s| - 2] == '\n' ==> s[|s| - 2 + 1] != '{';
      LastBreakBraceIs(s[..|s| - 1], i);
    }
  }

  lemma BracedIs(head: string, body: string)
    requires '{' !in head && |body| >= 2 && body[0] == '{' && body[|body| - 1] == '}'
    ensures Braced(head + body) == Some(body)
  {
    var out := head + body;
    assert out[..|head|] == head && out[|head|..|out|] == body;
    FirstIndexIs(out, '{', |head|);
    LastIndexIsEnd(out, '}');
  }

  /** A block without braces and a body with one line starting with a brace, its first. */
  lemma BraceBoundary(head: string, body: string)
    requires |body| >= 2 && body[0] == '{'
    requires OneBraceLine(body)
    ensures LastBreakBrace(head + "\n" + body) == Some(|head|)
  {
    var out, b := head + "\n" + body, |head| + 1;
    forall k | |head| < k < |out| - 1
      ensures out[k] == '\n' ==> out[k + 1] != '{'
    {
      assert out[k] == body[k - b] && out[k + 1] == body[k - b + 1];
    }
    LastBreakBraceIs(out, |head|);
  }

  lemma LinesAreLines(r: Reply)
    requires WellFormed(r)
    ensures forall l | l in Lines(r) :: OneLine(l)
  {
    HeaderLinesOneLine(r.headers);
    FirstLineOneLine(r);
  }

  lemma EolText(block: string, eol: string, body: string)
    requires eol != "" && eol[|eol| - 1] == '\n'
    ensures block + eol + body == block + eol[..|eol| - 1] + "\n" + body
  {
    assert eol == eol[..|eol| - 1] + "\n";
    assert block + eol == block + eol[..|eol| - 1] + "\n";
  }

  lemma PrintSplits(r: Reply, eol: string)
    requires WellFormed(r) && Eol(eol) && OneBraceLine(r.body)
    ensures var head, out := Block(Lines(r), eol) + eol[..|eol| - 1], Print(r, eol);
            LastBreakBrace(out) == Some(|head|) && out[..|head|] == head && Braced(out) == Some(r.body)
  {
    var block, body := Block(Lines(r), eol), r.body;
    EolText(block, eol, body);
    LinesAreLines(r);
    BlockHasNoBrace(Lines(r), eol);
    BoundaryAfter(block, eol[..|eol| - 1], body);
  }

  lemma BoundaryAfter(block: string, last: string, body: string)
    requires '{' !in block && '{' !in last
    requires |body| >= 2 && body[0] == '{' && body[|body| - 1] == '}'
    requires OneBraceLine(body)
    ensures var head, out := block + last, block + last + "\n" + body;
            LastBreakBrace(out) == Some(|head|) && out[..|head|] == head && Braced(out) == Some(body)
  {
    BraceBoundary(block + last, body);
    BracedIs(block + last + "\n", body);
  }

  lemma FirstLineOneLine(r: Reply)
    requires WellFormed(r)
    ensures OneLine(r.protocol + " " + r.status)
  {
  }

  lemma ParsedJson(out: string, i: nat, lines: seq<string>, body: string, value: seq<Token>)
    requires !TimedOut(Lower(out)) && Contains(Lower(out), JSON_TYPE)
    requires LastBreakBrace(out) == Some(i) && SplitLines(out[..i]) == lines
    requires Braced(out) == Some(body) && Loads(Compact(body, false)) == Some(value)
    ensures Parsed(out) == HeaderFields(lines, map["output" := Output(value)])
  {
  }

  lemma PrintParses(r: Reply, eol: string)
    requires WellFormed(r) && Eol(eol) && !TimedOut(Lower(Print(r, eol))) && OneBraceLine(r.body)
    ensures Parsed(Print(r, eol))
         == HeaderFields(Lines(r) + LastEmpty(eol), map["output" := Output(Loads(r.body).value)])
  {
    var value, lines := Loads(r.body).value, Lines(r) + LastEmpty(eol);
    PrintShowsType(r, eol);
    PrintSplits(r, eol);
    LinesAreLines(r);
    SplitEmptyBlock(eol);
    SplitBlock(Lines(r), eol, eol[..|eol| - 1]);
    CompactKeepsValue(r.body);
    ParsedJson(Print(r, eol), |Block(Lines(r), eol) + eol[..|eol| - 1]|, lines, r.body, value);
  }

  /** Every header with its last value, the status under the protocol name, and the body's value under `output`. */
  function Expected(r: Reply): Fields
    requires WellFormed(r)
  {
    Assoc([(r.protocol, r.status)] + r.headers, map["output" := Output(Loads(r.body).value)])
  }

  lemma RoundTripIfPlain(r: Reply, eol: string)
    requires WellFormed(r) && Eol(eol) && !TimedOut(Lower(Print(r, eol))) && OneBraceLine(r.body)
    ensures Parsed(Print(r, eol)) == Ok(Expected(r))
  {
    var known := map["output" := Output(Loads(r.body).value)];
    var pairs := [(r.protocol, r.status)] + r.headers;
    var tail := LastEmpty(eol);
    var lines := Lines(r) + tail;
    PrintParses(r, eol);
    StatusStep(r, lines, known);
    assert lines[1..] == HeaderLines(r.headers) + tail;
    HeaderFieldsOfLines(r.headers, tail, known[r.protocol := Text(r.status)]);
    assert pairs[1..] == r.headers;
  }

  lemma SplitEmptyLine(eol: string, rest: string)
    requires Eol(eol)
    ensures SplitLines(eol + rest) == [""] + SplitLines(rest)
  {
    var s := eol + rest;
    assert LineLength(s) == 0 && s[0..] == s && s[..0] == "";
    assert s[|eol|..] == rest;
  }

  /** The header part reaches to the last line that starts with a brace, hence at least to any such line. */
  lemma {:induction false} LastBreakReaches(s: string, i: nat)
    requires i + 1 < |s| && s[i] == '\n' && s[i + 1] == '{'
    ensures LastBreakBrace(s).Some? && LastBreakBrace(s).value >= i
  {
    if i + 2 < |s| && !(s[|s| - 2] == '\n' && s[|s| - 1] == '{') {
      LastBreakReaches(s[..|s| - 1], i);
    }
  }

  predicate StartsWithBrace(line: string) {
    line != "" && line[0] == '{'
  }

  /** A line starting with a brace, read as a header, leaves a field whose name starts with one. */
  lemma {:induction false} BraceStays(lines: seq<string>, known: Fields, k: nat)
    requires k < |lines| && StartsWithBrace(lines[k]) && HeaderFields(lines, known).Ok?
    ensures exists name :: name in HeaderFields(lines, known).value && StartsWithBrace(name)
    decreases |lines|
  {
    if k > 0 {
      var next := if lines[0] == "" then known
                  else var parts := SplitHeader(Trim(lines[0])).value; known[parts.0 := Text(parts.1)];
      assert lines[1..][k - 1] == lines[k];
      BraceStays(lines[1..], next, k - 1);
    } else {
      TrimKeepsFirst(lines[0]);
      BraceFirst(Trim(lines[0]));
      var parts := SplitHeader(Trim(lines[0])).value;
      NamesStay(lines[1..], known[parts.0 := Text(parts.1)], parts.0);
    }
  }

  lemma TrimKeepsFirst(line: string)
    requires StartsWithBrace(line)
    ensures StartsWithBrace(Trim(line))
  {
    assert TrimLeft(line) == line;
    TrimRightKeepsFirst(line);
  }

  lemma {:induction false} TrimRightKeepsFirst(line: string)
    requires StartsWithBrace(line)
    ensures StartsWithBrace(TrimRight(line))
  {
    if Space(line[|line| - 1]) {
      TrimRightKeepsFirst(line[..|line| - 1]);
    }
  }

  lemma BraceFirst(s: string)
    requires StartsWithBrace(s) && SplitHeader(s).Some?
    ensures StartsWithBrace(SplitHeader(s).value.0)
  {
  }

  lemma {:induction false} NamesStay(lines: seq<string>, known: Fields, name: string)
    requires name in known && HeaderFields(lines, known).Ok?
    ensures name in HeaderFields(lines, known).value
    decreases |lines|
  {
    if lines != [] {
      if lines[0] == "" {
        NamesStay(lines[1..], known, name);
      } else {
        var parts := SplitHeader(Trim(lines[0])).value;
        NamesStay(lines[1..], known[parts.0 := Text(parts.1)], name);
      }
    }
  }

  lemma ExpectedHasNoBrace(r: Reply, name: string)
    requires WellFormed(r) && StartsWithBrace(name)
    ensures name !in Expected(r)
  {
    var pairs := [(r.protocol, r.status)] + r.headers;
    assert forall p | p in pairs :: IsName(p.0) && '{' !in p.0;
    AssocKeeps(pairs, map["output" := Output(Loads(r.body).value)], name);
  }

  /** The header part when the body has a further line that starts with a brace: it takes in the first. */
  lemma HeaderPartTakesBody(front: string, body: string) returns (t: string)
    requires |body| >= 2 && body[0] == '{' && !OneBraceLine(body)
    ensures LastBreakBrace(front + body).Some? && (front + body)[..LastBreakBrace(front + body).value] == front + t
    ensures StartsWithBrace(t)
  {
    var out, b := front + body, |front|;
    var i :| 0 <= i < |body| - 1 && body[i] == '\n' && body[i + 1] == '{';
    assert out[b + i] == body[i] && out[b + i + 1] == body[i + 1];
    LastBreakReaches(out, b + i);
    var j := LastBreakBrace(out).value;
    t := body[..j - b];
    assert out[..j] == front + t;
  }

  lemma SplitShowsBrace(t: string)
    requires StartsWithBrace(t)
    ensures SplitLines(t) != [] && StartsWithBrace(SplitLines(t)[0])
  {
    assert LineLength(t) >= 1;
  }

  /** The lines of the header part: the header, the empty line, and lines of the body. */
  lemma HeaderPartLines(lines: seq<string>, eol: string, t: string)
    requires Eol(eol) && StartsWithBrace(t) && forall l | l in lines :: OneLine(l)
    ensures var all := SplitLines(Block(lines, eol) + eol + t);
            |all| > |lines| + 1 && StartsWithBrace(all[|lines| + 1])
  {
    BlockTail(Block(lines, eol), eol, t);
    SplitBlock(lines, eol, eol + t);
    SplitEmptyLine(eol, t);
    SplitShowsBrace(t);
  }

  lemma BraceFieldUnexpected(r: Reply, lines: seq<string>, k: nat)
    requires WellFormed(r) && k < |lines| && StartsWithBrace(lines[k])
    ensures HeaderFields(lines, map["output" := Output(Loads(r.body).value)]) != Ok(Expected(r))
  {
    var known := map["output" := Output(Loads(r.body).value)];
    if HeaderFields(lines, known).Ok? {
      BraceStays(lines, known, k);
      var name :| name in HeaderFields(lines, known).value && StartsWithBrace(name);
      ExpectedHasNoBrace(r, name);
    }
  }

  lemma FrontParses(r: Reply, eol: string, front: string, t: string)
    requires WellFormed(r) && Eol(eol) && !TimedOut(Lower(Print(r, eol))) && front == Block(Lines(r), eol) + eol
    requires var j := LastBreakBrace(front + r.body); j.Some? && (front + r.body)[..j.value] == front + t
    ensures Parsed(Print(r, eol)) == HeaderFields(SplitLines(front + t), map["output" := Output(Loads(r.body).value)])
  {
    LinesAreLines(r);
    BlockHasNoBrace(Lines(r), eol);
    BracedIs(front, r.body);
    CompactKeepsValue(r.body);
    PrintShowsType(r, eol);
    var j := LastBreakBrace(front + r.body).value;
    ParsedJson(front + r.body, j, SplitLines(front + t), r.body, Loads(r.body).value);
  }

  lemma BraceLineBreaks(r: Reply, eol: string)
    requires WellFormed(r) && Eol(eol) && !OneBraceLine(r.body) && !TimedOut(Lower(Print(r, eol)))
    ensures Parsed(Print(r, eol)) != Ok(Expected(r))
  {
    var front := Block(Lines(r), eol) + eol;
    LinesAreLines(r);
    var t := HeaderPartTakesBody(front, r.body);
    HeaderPartLines(Lines(r), eol, t);
    BraceFieldUnexpected(r, SplitLines(front + t), |Lines(r)| + 1);
    FrontParses(r, eol, front, t);
  }

  /** Parsing undoes printing exactly for the replies that nowhere, body included, look like a gateway time-out, and
      whose body has no further line starting with a brace: what stands before such a line is read as headers. */
  lemma RoundTrip(r: Reply, eol: string)
    requires WellFormed(r) && Eol(eol)
    ensures Parsed(Print(r, eol)) == Ok(Expected(r)) <==> !TimedOut(Lower(Print(r, eol))) && OneBraceLine(r.body)
    ensures "output" in Expected(r) && Expected(r)["output"] == Output(Loads(r.body).value)
  {
    if !TimedOut(Lower(Print(r, eol))) {
      if OneBraceLine(r.body) {
        RoundTripIfPlain(r, eol);
      } else {
        BraceLineBreaks(r, eol);
      }
    }
    AssocKeeps([(r.protocol, r.status)] + r.headers, map["output" := Output(Loads(r.body).value)], "output");
  }

  lemma StatusStep(r: Reply, lines: seq<string>, known: Fields)
    requires WellFormed(r) && lines != [] && lines[0] == r.protocol + " " + r.status
    ensures HeaderFields(lines, known) == HeaderFields(lines[1..], known[r.protocol := Text(r.status)])
  {
    NameLine(r.protocol, " ", r.status);
  }

  /** A line is read as a header exactly when it holds a blank. */
  lemma {:induction false} HeaderExact(s: string)
    ensures SplitHeader(s).Some? <==> ' ' in s
  {
    if s != "" {
      HeaderExact(s[1..]);
      assert s == [s[0]] + s[1..];
    }
  }

  predicate HeaderOrEmpty(line: string) {
    line == "" || ' ' in Trim(line)
  }

  /** The header loop gets through exactly when every line is empty or, trimmed, holds a blank. */
  lemma {:induction false} HeadersExact(lines: seq<string>, known: Fields)
    ensures HeaderFields(lines, known).Ok? <==> forall k | 0 <= k < |lines| :: HeaderOrEmpty(lines[k])
    ensures HeaderFields(lines, known).Err? ==> HeaderFields(lines, known).error == NotAHeader
    decreases |lines|
  {
    if lines != [] {
      assert forall k | 0 < k < |lines| :: lines[1..][k - 1] == lines[k];
      assert forall k | 0 <= k < |lines| - 1 :: lines[1..][k] == lines[k + 1];
      if lines[0] == "" {
        HeadersExact(lines[1..], known);
      } else {
        HeaderExact(Trim(lines[0]));
        match SplitHeader(Trim(lines[0]))
        case None => assert !HeaderOrEmpty(lines[0]);
        case Some(parts) => HeadersExact(lines[1..], known[parts.0 := Text(parts.1)]);
      }
    }
  }

  /** A line that starts with an opening brace after a line feed, which ends the header part of a JSON reply. */
  predicate BraceLine(out: string, i: nat) {
    i + 1 < |out| && out[i] == '\n' && out[i + 1] == '{'
  }

  /**
   A reply with a JSON content type: without a line that starts with a brace nothing is read from it at all; otherwise
   it is a failure exactly when a header line is not one and the text between the outer braces, if any, is JSON. Text
   between them that is no JSON, once compacted, leaves the raw output.
   */
  lemma JsonReplyExact(out: string)
    requires !TimedOut(Lower(out)) && Contains(Lower(out), JSON_TYPE)
    ensures (forall i :: !BraceLine(out, i)) ==> Parsed(out) == Ok(map[])
    ensures (exists i :: BraceLine(out, i)) ==>
              var head := LastBreakBrace(out);
              && head.Some? && BraceLine(out, head.value) && (forall i | head.value < i :: !BraceLine(out, i))
              && var text, lines := Braced(out), SplitLines(out[..head.value]);
                 var unread := text.Some? && Loads(Compact(text.value, false)).None?;
                 && (unread ==> Parsed(out) == Ok(map["output" := Text(out)]))
                 && (Parsed(out).Err? <==> !unread && exists k | 0 <= k < |lines| :: !HeaderOrEmpty(lines[k]))
                 && (Parsed(out).Err? ==> Parsed(out).error == NotAHeader)
  {
    BreakBraceExactly(out);
    if LastBreakBrace(out).Some? {
      var text, lines := Braced(out), SplitLines(out[..LastBreakBrace(out).value]);
      var value := if text.None? then None else Loads(Compact(text.value, false));
      JsonCases(out, lines, value);
      HeadersExact(lines, if value.Some? then map["output" := Output(value.value)] else map[]);
    }
  }

  lemma JsonCases(out: string, lines: seq<string>, value: Option<seq<Token>>)
    requires !TimedOut(Lower(out)) && Contains(Lower(out), JSON_TYPE) && LastBreakBrace(out).Some?
    requires lines == SplitLines(out[..LastBreakBrace(out).value])
    requires value == if Braced(out).None? then None else Loads(Compact(Braced(out).value, false))
    ensures Parsed(out)
         == if Braced(out).None? then HeaderFields(lines, map[])
            else if value.None? then Ok(map["output" := Text(out)])
            else HeaderFields(lines, map["output" := Output(value.value)])
  {
  }

  lemma {:induction false} BreakBraceExactly(s: string)
    ensures var r := LastBreakBrace(s);
            && (r.Some? <==> exists i :: BraceLine(s, i))
            && (r.Some? ==> BraceLine(s, r.value) && forall i | r.value < i :: !BraceLine(s, i))
  {
    if LastBreakBrace(s).Some? {
      assert BraceLine(s, LastBreakBrace(s).value);
    }
    forall i | BraceLine(s, i) ensures LastBreakBrace(s).Some? && LastBreakBrace(s).value >= i {
      LastBreakReaches(s, i);
    }
  }

  /** Over gRPC the answer is the value of the output, or the output itself when it is none. */
  lemma GrpcReplyExact(out: string)
    ensures Answered(out, false) == Err(GatewayTimeout) <==> TimedOut(Lower(out))
    ensures !TimedOut(Lower(out)) ==>
              && (forall v :: Answered(out, false) == Ok(Json(v)) <==> Loads(out) == Some(v))
              && (Answered(out, false) == Ok(Dict(map["output" := Text(out)])) <==> Loads(out) == None)
  {
  }

  function AllButTwo(lines: seq<string>): seq<string> {
    if |lines| <= 2 then [] else lines[..|lines| - 2]
  }

  /**
   A reply without a JSON content type is parsed exactly when it is no time-out, has at least three lines, and the
   third line from the end is no JSON, or it and every line before it could be headers. In the first case the raw
   output is all there is.
   */
  lemma PlainReplyExact(out: string)
    requires !Contains(Lower(out), JSON_TYPE)
    ensures var lines := AllButTwo(SplitLines(out));
            && (Parsed(out).Ok? <==>
                  !TimedOut(Lower(out)) && lines != []
                  && (Loads(lines[|lines| - 1]).None? || forall k | 0 <= k < |lines| :: HeaderOrEmpty(lines[k])))
            && (!TimedOut(Lower(out)) && lines != [] && Loads(lines[|lines| - 1]).None? ==>
                  Parsed(out) == Ok(map["output" := Text(out)]))
            && (!TimedOut(Lower(out)) && lines != [] && Parsed(out).Err? ==> Parsed(out) == Err(NotAHeader))
  {
    var lines := AllButTwo(SplitLines(out));
    if lines != [] && Loads(lines[|lines| - 1]).Some? {
      HeadersExact(lines, map["output" := Output(Loads(lines[|lines| - 1]).value)]);
    }
  }
}
