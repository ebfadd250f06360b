/** Which replies count as a gateway time-out: the search of `InferenceReply` as a pattern, and on printed replies. */
module ReplyStatus {
  import opened Wrappers
  import opened JsonText
  import opened Texts
  import opened InferenceReply

  const VERSION := "http/1."

  predicate Blank(s: string) {
    forall k | 0 <= k < |s| :: Space(s[k])
  }

  /** A word that begins before this text ends where the text does. */
  predicate WordEnds(after: string) {
    after == "" || !('0' <= after[0] <= '9' || 'a' <= after[0] <= 'z' || 'A' <= after[0] <= 'Z' || after[0] == '_')
  }

  /** The version and its digit, white space, the number of the status, and no further word character. */
  predicate Mention(s: string, before: string, digit: char, gap: string, after: string) {
    && s == before + (VERSION + [digit] + (gap + ("504" + after)))
    && '0' <= digit <= '9' && gap != "" && Blank(gap) && WordEnds(after)
  }

  lemma {:induction false} TrimLeftCuts(s: string)
    ensures |TrimLeft(s)| <= |s| && s == s[..|s| - |TrimLeft(s)|] + TrimLeft(s)
    ensures Blank(s[..|s| - |TrimLeft(s)|]) && (TrimLeft(s) != "" ==> !Space(TrimLeft(s)[0]))
  {
    if s != "" && Space(s[0]) {
      TrimLeftCuts(s[1..]);
      var n := |s[1..]| - |TrimLeft(s[1..])|;
      assert s == [s[0]] + s[1..];
      assert s[..n + 1] == [s[0]] + s[1..][..n];
    } else {
      assert s[..0] == "" && s == "" + s;
    }
  }

  lemma {:induction false} TrimLeftDrops(gap: string, rest: string)
    requires Blank(gap) && rest != "" && !Space(rest[0])
    ensures TrimLeft(gap + rest) == rest
  {
    if gap == "" {
      assert gap + rest == rest;
    } else {
      assert (gap + rest)[1..] == gap[1..] + rest;
      TrimLeftDrops(gap[1..], rest);
    }
  }

  /** What the search finds at the start of a text. */
  predicate StatusFirst(s: string, digit: char, gap: string, after: string) {
    && s == VERSION + [digit] + (gap + ("504" + after))
    && '0' <= digit <= '9' && gap != "" && Blank(gap) && WordEnds(after)
  }

  lemma FoundThere(s: string) returns (digit: char, gap: string, after: string)
    requires TimeoutStatusAt(s)
    ensures StatusFirst(s, digit, gap, after)
  {
    var tail, code := s[8..], TrimLeft(s[8..]);
    TrimLeftCuts(tail);
    digit, gap, after := s[7], tail[..|tail| - |code|], code[3..];
    assert code == "504" + after;
    assert s == s[..7] + [digit] + tail;
    assert Space(tail[0]) && !Space(code[0]);
    assert |code| == |tail| ==> tail == code;
    assert after != "" ==> after[0] == code[3];
  }

  lemma ThereFound(s: string, digit: char, gap: string, after: string)
    requires StatusFirst(s, digit, gap, after)
    ensures TimeoutStatusAt(s)
  {
    var rest := "504" + after;
    assert s[..7] == VERSION && s[7] == digit && s[8..] == gap + rest;
    assert rest[0] == '5' && rest[..3] == "504" && (after != "" ==> rest[3] == after[0]);
    TrimLeftDrops(gap, rest);
    assert s[8] == gap[0];
  }

  /** The search finds what the pattern describes and nothing else. */
  lemma TimedOutExactly(s: string)
    ensures TimedOut(s) <==> exists before, digit, gap, after :: Mention(s, before, digit, gap, after)
  {
    if TimedOut(s) {
      var i :| 0 <= i < |s| && TimeoutStatusAt(s[i..]);
      var digit, gap, after := FoundThere(s[i..]);
      assert s == s[..i] + s[i..];
      assert Mention(s, s[..i], digit, gap, after);
    }
    if exists before, digit, gap, after :: Mention(s, before, digit, gap, after) {
      var before, digit, gap, after :| Mention(s, before, digit, gap, after);
      var there := VERSION + [digit] + (gap + ("504" + after));
      assert s[|before|..] == there;
      ThereFound(there, digit, gap, after);
      assert |before| < |s|;
    }
  }

  // ----- Replies that name the protocol only at their start

  /** The version does not occur, in whatever case. */
  predicate Free(s: string) {
    !Contains(Lower(s), VERSION)
  }

  predicate At(s: string, i: int) {
    0 <= i <= |s| - 7 && s[i..][..7] == VERSION
  }

  lemma ContainsAt(s: string)
    ensures Contains(s, VERSION) <==> exists i :: At(s, i)
  {
    ContainsExactly(s, VERSION);
    if exists i | 0 <= i <= |s| - |VERSION| :: s[i..][..|VERSION|] == VERSION {
      var i :| 0 <= i <= |s| - |VERSION| && s[i..][..|VERSION|] == VERSION;
      assert At(s, i);
    }
    if i :| At(s, i) {
      assert s[i..][..|VERSION|] == VERSION;
    }
  }

  lemma AtShifts(s: string, i: nat, n: nat)
    requires n <= i <= |s|
    ensures At(s, i) <==> At(s[n..], i - n)
  {
    assert s[n..][i - n..] == s[i..];
  }

  lemma AtPrefix(s: string, i: nat, n: nat)
    requires i + 7 <= n <= |s|
    ensures At(s, i) <==> At(s[..n], i)
  {
    assert s[..n][i..][..7] == s[i..][..7];
  }

  lemma AtHolds(s: string, i: int, p: int)
    requires At(s, i) && i <= p < i + 7
    ensures s[p] in VERSION
  {
    assert s[p] == s[i..][..7][p - i];
  }

  /** No occurrence lies across a character that the version does not hold. */
  lemma AcrossForeign(a: string, c: char, b: string)
    requires !Contains(a, VERSION) && !Contains(b, VERSION) && c !in VERSION
    ensures !Contains(a + [c] + b, VERSION)
  {
    var s := a + [c] + b;
    ContainsAt(s);
    ContainsAt(a);
    ContainsAt(b);
    if i :| At(s, i) {
      if i > |a| {
        assert s[|a| + 1..] == b;
        AtShifts(s, i, |a| + 1);
      } else if i + 7 <= |a| {
        assert s[..|a|] == a;
        AtPrefix(s, i, |a|);
      } else {
        AtHolds(s, i, |a|);
      }
    }
  }

  /** Separators: characters the version does not hold and that have no case. */
  predicate Separates(sep: string) {
    forall k | 0 <= k < |sep| :: sep[k] == ' ' || sep[k] == '\r' || sep[k] == '\n'
  }

  lemma FreeAcross(a: string, c: char, b: string)
    requires Free(a) && Free(b) && (c == ' ' || c == '\r' || c == '\n')
    ensures Free(a + [c] + b)
  {
    LowerJoined(a + [c], b);
    LowerJoined(a, [c]);
    assert Lower([c]) == [c];
    AcrossForeign(Lower(a), c, Lower(b));
  }

  lemma EmptyFree()
    ensures Free("")
  {
  }

  lemma {:induction false} FreeAfter(sep: string, b: string)
    requires Separates(sep) && Free(b)
    ensures Free(sep + b)
  {
    if sep == "" {
      assert sep + b == b;
    } else {
      EmptyFree();
      FreeAfter(sep[1..], b);
      FreeAcross("", sep[0], sep[1..] + b);
      assert "" + [sep[0]] + (sep[1..] + b) == sep + b;
    }
  }

  lemma FreeJoined(a: string, sep: string, b: string)
    requires Separates(sep) && sep != "" && Free(a) && Free(b)
    ensures Free(a + sep + b)
  {
    FreeAfter(sep[1..], b);
    FreeAcross(a, sep[0], sep[1..] + b);
    assert a + [sep[0]] + (sep[1..] + b) == a + sep + b;
  }

  lemma {:induction false} FreeBlock(lines: seq<string>, eol: string, tail: string)
    requires Separates(eol) && eol != "" && Free(tail) && forall k | 0 <= k < |lines| :: Free(lines[k])
    ensures Free(Block(lines, eol) + tail)
  {
    if lines == [] {
      assert Block(lines, eol) + tail == tail;
    } else {
      FreeBlock(lines[1..], eol, tail);
      FreeJoined(lines[0], eol, Block(lines[1..], eol) + tail);
      BlockTail(lines[0] + eol, Block(lines[1..], eol), tail);
    }
  }

  /** A reply over HTTP/1 that names the protocol nowhere but at its start. */
  predicate NamedOnce(r: Reply) {
    && |r.protocol| == 8 && r.protocol[..7] == "HTTP/1." && '0' <= r.protocol[7] <= '9'
    && Free(r.status) && Free(r.body) && forall k | 0 <= k < |r.headers| :: Free(HeaderLine(r.headers[k]))
  }

  /** What follows the status in a printed reply. */
  function AfterStatus(r: Reply, eol: string): string {
    eol + (Block(HeaderLines(r.headers), eol) + (eol + r.body))
  }

  lemma PrintParts(r: Reply, eol: string)
    ensures Print(r, eol) == r.protocol + (" " + (r.status + AfterStatus(r, eol)))
  {
    var lines := Lines(r);
    assert lines[0] == r.protocol + " " + r.status && lines[1..] == HeaderLines(r.headers);
    assert Block(lines, eol) == lines[0] + eol + Block(lines[1..], eol);
    Regrouped(r.protocol, r.status, eol, Block(lines[1..], eol), r.body);
  }

  lemma Regrouped(a: string, b: string, eol: string, block: string, body: string)
    ensures a + " " + b + eol + block + eol + body == a + (" " + (b + (eol + (block + (eol + body)))))
  {
  }

  lemma AfterStatusFree(r: Reply, eol: string)
    requires NamedOnce(r) && Eol(eol)
    ensures Free(" " + (r.status + AfterStatus(r, eol)))
  {
    var lines := HeaderLines(r.headers);
    HeaderCount(r.headers);
    forall k | 0 <= k < |lines| ensures Free(lines[k]) {
      HeaderLinesAt(r.headers, k);
    }
    FreeAfter(eol, r.body);
    FreeBlock(lines, eol, eol + r.body);
    var tail := Block(lines, eol) + (eol + r.body);
    FreeJoined(r.status, eol, tail);
    assert r.status + eol + tail == r.status + AfterStatus(r, eol);
    FreeAfter(" ", r.status + AfterStatus(r, eol));
  }

  lemma {:induction false} HeaderCount(hs: seq<(string, string)>)
    ensures |HeaderLines(hs)| == |hs|
  {
    if hs != [] {
      HeaderCount(hs[1..]);
    }
  }

  /** The version at the start of a text is its only one when the text goes on without. */
  lemma OnlyAtStart(head: string, rest: string, i: nat)
    requires |head| == 8 && head[..7] == VERSION && '0' <= head[7] <= '9' && !Contains(rest, VERSION)
    requires At(head + rest, i)
    ensures i == 0
  {
    var s := head + rest;
    assert s[i] == s[i..][..7][0] == 'h';
    assert forall k | 0 < k < 8 :: s[k] == if k < 7 then VERSION[k] else head[7];
    if i >= 8 {
      assert s[8..] == rest;
      AtShifts(s, i, 8);
      ContainsAt(rest);
    }
  }

  lemma OneStatus(head: string, rest: string)
    requires |head| == 8 && head[..7] == VERSION && '0' <= head[7] <= '9' && !Contains(rest, VERSION)
    ensures TimedOut(head + rest) <==> TimeoutStatusAt(head + rest)
  {
    var s := head + rest;
    assert s[0..] == s;
    if i :| 0 <= i < |s| && TimeoutStatusAt(s[i..]) {
      assert At(s, i);
      OnlyAtStart(head, rest, i);
    }
  }

  /** The status that is a gateway time-out: its number alone or followed by no word character. */
  predicate Says504(status: string, gap: string, after: string) {
    status == gap + ("504" + after) && Blank(gap) && WordEnds(after)
  }

  lemma LowerDigits(code: string)
    ensures |code| >= 3 ==> (Lower(code)[..3] == "504" <==> code[..3] == "504")
    ensures |code| > 3 ==> (WordChar(Lower(code)[3]) <==> WordChar(code[3]))
  {
    if |code| >= 3 {
      var low := Lower(code);
      if code[..3] == "504" {
        assert code[0] == code[..3][0] && code[1] == code[..3][1] && code[2] == code[..3][2];
      }
      if low[..3] == "504" {
        assert low[0] == low[..3][0] && low[1] == low[..3][1] && low[2] == low[..3][2];
        assert code[..3] == "504";
      }
    }
  }

  /** The time-out read off a status on its own. */
  predicate Reads504(code: string) {
    |code| >= 3 && code[..3] == "504" && (|code| == 3 || !WordChar(code[3]))
  }

  lemma ReadsAsSaid(status: string)
    ensures Reads504(TrimLeft(status)) <==> exists gap, after :: Says504(status, gap, after)
  {
    var code := TrimLeft(status);
    TrimLeftCuts(status);
    if Reads504(code) {
      assert code == "504" + code[3..];
      assert Says504(status, status[..|status| - |code|], code[3..]);
    }
    if gap, after :| Says504(status, gap, after) {
      var rest := "504" + after;
      assert rest[0] == '5' && rest[..3] == "504" && |rest| == 3 + |after| && (after != "" ==> rest[3] == after[0]);
      TrimLeftDrops(gap, rest);
      assert code == rest && Reads504(rest);
    }
  }

  lemma SpaceLower(c: char)
    ensures Space(Lower([c])[0]) <==> Space(c)
  {
  }

  lemma {:induction false} TrimLeftLower(s: string)
    ensures TrimLeft(Lower(s)) == Lower(TrimLeft(s))
  {
    if s != "" {
      SpaceLower(s[0]);
      assert Lower(s)[1..] == Lower(s[1..]);
      TrimLeftLower(s[1..]);
    }
  }

  lemma TrimLeftJoined(a: string, b: string)
    requires a != "" && !Space(a[|a| - 1])
    ensures TrimLeft(a) != "" && TrimLeft(a + b) == TrimLeft(a) + b
  {
    TrimLeftCuts(a);
    var code := TrimLeft(a);
    var gap := a[..|a| - |code|];
    assert code == "" ==> gap == a;
    assert a + b == gap + (code + b);
    TrimLeftDrops(gap, code + b);
  }

  /** Only the status of the first line is read. */
  lemma StatusRead(digit: char, status: string, after: string)
    requires '0' <= digit <= '9' && status != "" && !Space(status[|status| - 1])
    requires after != "" && (after[0] == '\r' || after[0] == '\n')
    ensures TimeoutStatusAt(VERSION + [digit] + (" " + (status + after))) <==> Reads504(TrimLeft(status))
  {
    var s := VERSION + [digit] + (" " + (status + after));
    assert s[..7] == VERSION && s[7] == digit && s[8] == ' ' && s[8..] == " " + (status + after);
    assert s[8..][1..] == status + after;
    assert TrimLeft(s[8..]) == TrimLeft(status + after);
    TrimLeftJoined(status, after);
    ReadsBefore(TrimLeft(status), after);
  }

  lemma ReadsBefore(code: string, after: string)
    requires after != "" && (after[0] == '\r' || after[0] == '\n')
    ensures Reads504(code + after) <==> Reads504(code)
  {
    var all := code + after;
    if |code| >= 3 {
      assert all[..3] == code[..3];
    } else if |all| >= 3 {
      assert all[..3][|code|] == after[0];
      assert "504"[|code|] != after[0];
    }
  }

  /**
   A printed reply that names its protocol only at the start counts as a gateway time-out exactly when its status is
   one; every other such reply comes back in full, exactly when its body has no further line starting with a brace.
   */
  lemma StatusDecides(r: Reply, eol: string)
    requires WellFormed(r) && NamedOnce(r) && Eol(eol)
    ensures Parsed(Print(r, eol)) == Err(GatewayTimeout) <==> exists gap, after :: Says504(r.status, gap, after)
    ensures Parsed(Print(r, eol)) == Ok(Expected(r)) <==>
              (forall gap, after :: !Says504(r.status, gap, after)) && OneBraceLine(r.body)
  {
    RoundTrip(r, eol);
    StatusOfPrint(r, eol);
    ReadsAsSaid(r.status);
    if Reads504(TrimLeft(r.status)) {
      assert exists gap, after :: Says504(r.status, gap, after);
    }
    OnlyTimeOut(Print(r, eol));
  }

  /** No other failure is reported as a time-out. */
  lemma OnlyTimeOut(out: string)
    ensures Parsed(out) == Err(GatewayTimeout) <==> TimedOut(Lower(out))
  {
    if !TimedOut(Lower(out)) && Contains(Lower(out), JSON_TYPE) && LastBreakBrace(out).Some? {
      var lines := SplitLines(out[..LastBreakBrace(out).value]);
      HeadersExact(lines, map[]);
      if Braced(out).Some? && Loads(Compact(Braced(out).value, false)).Some? {
        HeadersExact(lines, map["output" := Output(Loads(Compact(Braced(out).value, false)).value)]);
      }
    }
    if !TimedOut(Lower(out)) && !Contains(Lower(out), JSON_TYPE) {
      PlainReplyExact(out);
    }
  }

  lemma StatusOfPrint(r: Reply, eol: string)
    requires WellFormed(r) && NamedOnce(r) && Eol(eol)
    ensures TimedOut(Lower(Print(r, eol))) <==> Reads504(TrimLeft(r.status))
  {
    var tail := AfterStatus(r, eol);
    var rest := " " + (r.status + tail);
    PrintParts(r, eol);
    AfterStatusFree(r, eol);
    LowerJoined(r.protocol, rest);
    LowerJoined(" ", r.status + tail);
    LowerJoined(r.status, tail);
    ProtocolLowered(r.protocol);
    OneStatus(Lower(r.protocol), Lower(rest));
    LowerKeepsEnds(r.status, tail);
    StatusRead(r.protocol[7], Lower(r.status), Lower(tail));
    TrimLeftLower(r.status);
    LowerDigits(TrimLeft(r.status));
  }

  lemma ProtocolLowered(protocol: string)
    requires |protocol| == 8 && protocol[..7] == "HTTP/1." && '0' <= protocol[7] <= '9'
    ensures Lower(protocol) == VERSION + [protocol[7]] && Lower(protocol)[..7] == VERSION
  {
    assert protocol == "HTTP/1." + [protocol[7]];
    LowerJoined("HTTP/1.", [protocol[7]]);
    assert Lower("HTTP/1.") == VERSION;
  }

  lemma LowerKeepsEnds(status: string, tail: string)
    requires IsValue(status) && tail != "" && (tail[0] == '\r' || tail[0] == '\n')
    ensures Lower(status) != "" && !Space(Lower(status)[|status| - 1])
    ensures Lower(tail) != "" && Lower(tail)[0] == tail[0] && Lower(" ") == " "
  {
  }
}
