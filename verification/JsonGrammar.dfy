/** The recogniser of `JsonText` against the values JSON stands for: it accepts exactly what writing a value gives. */
module JsonGrammar {
  import opened JsonText

  datatype Json = Leaf(token: Token) | Array(items: Items) | Object(members: Members)

  datatype Items = NoItems | Item(first: Json, rest: Items)

  datatype Members = NoMembers | Member(key: string, value: Json, rest: Members)

  predicate Valid(j: Json) {
    match j
    case Leaf(t) => (t.Str? && StringOk(t.raw)) || (t.Scalar? && ScalarOk(t.raw))
    case Array(items) => ValidItems(items)
    case Object(members) => ValidMembers(members)
  }

  predicate ValidItems(items: Items) {
    items.Item? ==> Valid(items.first) && ValidItems(items.rest)
  }

  predicate ValidMembers(members: Members) {
    members.Member? ==> StringOk(members.key) && Valid(members.value) && ValidMembers(members.rest)
  }

  /** A value written out, token by token. */
  function Tokens(j: Json): (ts: seq<Token>)
    ensures ts != []
  {
    match j
    case Leaf(t) => [t]
    case Array(NoItems) => [Punct('['), Punct(']')]
    case Array(Item(first, rest)) => [Punct('[')] + (Tokens(first) + MoreItems(rest))
    case Object(NoMembers) => [Punct('{'), Punct('}')]
    case Object(Member(key, value, rest)) =>
      [Punct('{')] + ([Str(key)] + ([Punct(':')] + (Tokens(value) + MoreMembers(rest))))
  }

  /** What follows the first item, up to the bracket. */
  function MoreItems(items: Items): seq<Token> {
    match items
    case NoItems => [Punct(']')]
    case Item(first, rest) => [Punct(',')] + (Tokens(first) + MoreItems(rest))
  }

  function MoreMembers(members: Members): seq<Token> {
    match members
    case NoMembers => [Punct('}')]
    case Member(key, value, rest) =>
      [Punct(',')] + ([Str(key)] + ([Punct(':')] + (Tokens(value) + MoreMembers(rest))))
  }

  // ----- Whatever is written is accepted

  /** One token, and the acceptance of what follows it. */
  lemma AfterFirst(t: Token, rest: seq<Token>)
    ensures ([t] + rest)[0] == t && ([t] + rest)[1..] == rest
  {
  }

  lemma PoppedPushed(stack: seq<Frame>, f: Frame)
    ensures Pop(stack + [f]) == stack && (stack + [f])[|stack|] == f && After(stack + [f]) == CommaOrEnd
  {
  }

  lemma Regroup(t: Token, a: seq<Token>, b: seq<Token>, rest: seq<Token>)
    ensures [t] + (a + b) + rest == [t] + (a + (b + rest))
  {
  }

  lemma Closes(e: Expect, stack: seq<Frame>, f: Frame, rest: seq<Token>)
    requires Accepts(After(stack), stack, rest)
    requires e == CommaOrEnd || e == if f.Arr? then ValueOrEnd else KeyOrEnd
    ensures Accepts(e, stack + [f], [Punct(if f.Arr? then ']' else '}')] + rest)
  {
    PoppedPushed(stack, f);
    AfterFirst(Punct(if f.Arr? then ']' else '}'), rest);
  }

  lemma Opens(stack: seq<Frame>, f: Frame, rest: seq<Token>)
    requires Accepts(if f.Arr? then ValueOrEnd else KeyOrEnd, stack + [f], rest)
    ensures AcceptsValue(stack, [Punct(if f.Arr? then '[' else '{')] + rest)
  {
    AfterFirst(Punct(if f.Arr? then '[' else '{'), rest);
  }

  lemma Named(e: Expect, stack: seq<Frame>, key: string, rest: seq<Token>)
    requires StringOk(key) && Accepts(Value, stack, rest) && (e == Key || e == KeyOrEnd)
    ensures Accepts(e, stack, [Str(key)] + ([Punct(':')] + rest))
  {
    AfterFirst(Punct(':'), rest);
    AfterFirst(Str(key), [Punct(':')] + rest);
  }

  lemma Goes(stack: seq<Frame>, f: Frame, rest: seq<Token>)
    requires Accepts(if f.Arr? then Value else Key, stack + [f], rest)
    ensures Accepts(CommaOrEnd, stack + [f], [Punct(',')] + rest)
  {
    PoppedPushed(stack, f);
    AfterFirst(Punct(','), rest);
  }

  lemma {:induction false} ValueAccepted(j: Json, stack: seq<Frame>, rest: seq<Token>)
    requires Valid(j) && Accepts(After(stack), stack, rest)
    ensures AcceptsValue(stack, Tokens(j) + rest) && Tokens(j)[0] != Punct(']')
    decreases j, 0
  {
    match j
    case Leaf(t) =>
      AfterFirst(t, rest);
    case Array(NoItems) =>
      Closes(ValueOrEnd, stack, Arr, rest);
      Opens(stack, Arr, [Punct(']')] + rest);
      assert Tokens(j) + rest == [Punct('[')] + ([Punct(']')] + rest);
    case Array(Item(first, more)) =>
      ItemsAccepted(more, stack, rest);
      FirstAccepted(first, stack + [Arr], MoreItems(more) + rest);
      Bracketed(stack, Tokens(first), MoreItems(more), rest);
    case Object(NoMembers) =>
      Closes(KeyOrEnd, stack, Obj, rest);
      Opens(stack, Obj, [Punct('}')] + rest);
      assert Tokens(j) + rest == [Punct('{')] + ([Punct('}')] + rest);
    case Object(Member(key, value, more)) =>
      MembersAccepted(more, stack, rest);
      FirstAccepted(value, stack + [Obj], MoreMembers(more) + rest);
      Braced(stack, key, Tokens(value), MoreMembers(more), rest);
  }

  lemma Bracketed(stack: seq<Frame>, first: seq<Token>, more: seq<Token>, rest: seq<Token>)
    requires Accepts(ValueOrEnd, stack + [Arr], first + (more + rest))
    ensures AcceptsValue(stack, [Punct('[')] + (first + more) + rest)
  {
    Opens(stack, Arr, first + (more + rest));
    Regroup(Punct('['), first, more, rest);
  }

  lemma Braced(stack: seq<Frame>, key: string, value: seq<Token>, more: seq<Token>, rest: seq<Token>)
    requires StringOk(key) && Accepts(Value, stack + [Obj], value + (more + rest))
    ensures AcceptsValue(stack, [Punct('{')] + ([Str(key)] + ([Punct(':')] + (value + more))) + rest)
  {
    Named(KeyOrEnd, stack + [Obj], key, value + (more + rest));
    Opens(stack, Obj, [Str(key)] + ([Punct(':')] + (value + (more + rest))));
    RegroupMember(Punct('{'), key, value, more, rest);
  }

  lemma RegroupMember(t: Token, key: string, a: seq<Token>, b: seq<Token>, rest: seq<Token>)
    ensures [t] + ([Str(key)] + ([Punct(':')] + (a + b))) + rest
         == [t] + ([Str(key)] + ([Punct(':')] + (a + (b + rest))))
  {
  }

  /** Within brackets a comma or the end follows. */
  lemma {:induction false} FirstAccepted(j: Json, stack: seq<Frame>, rest: seq<Token>)
    requires Valid(j) && stack != [] && Accepts(CommaOrEnd, stack, rest)
    ensures Accepts(Value, stack, Tokens(j) + rest) && Accepts(ValueOrEnd, stack, Tokens(j) + rest)
    decreases j, 1
  {
    ValueAccepted(j, stack, rest);
    assert (Tokens(j) + rest)[0] == Tokens(j)[0];
  }

  lemma {:induction false} ItemsAccepted(items: Items, stack: seq<Frame>, rest: seq<Token>)
    requires ValidItems(items) && Accepts(After(stack), stack, rest)
    ensures Accepts(CommaOrEnd, stack + [Arr], MoreItems(items) + rest)
  {
    match items
    case NoItems => Closes(CommaOrEnd, stack, Arr, rest);
    case Item(first, more) =>
      ItemsAccepted(more, stack, rest);
      FirstAccepted(first, stack + [Arr], MoreItems(more) + rest);
      Goes(stack, Arr, Tokens(first) + (MoreItems(more) + rest));
      Regroup(Punct(','), Tokens(first), MoreItems(more), rest);
  }

  lemma {:induction false} MembersAccepted(members: Members, stack: seq<Frame>, rest: seq<Token>)
    requires ValidMembers(members) && Accepts(After(stack), stack, rest)
    ensures Accepts(CommaOrEnd, stack + [Obj], MoreMembers(members) + rest)
  {
    match members
    case NoMembers => Closes(CommaOrEnd, stack, Obj, rest);
    case Member(key, value, more) =>
      MembersAccepted(more, stack, rest);
      FirstAccepted(value, stack + [Obj], MoreMembers(more) + rest);
      var valued := Tokens(value) + (MoreMembers(more) + rest);
      Named(Key, stack + [Obj], key, valued);
      Goes(stack, Obj, [Str(key)] + ([Punct(':')] + valued));
      RegroupMember(Punct(','), key, Tokens(value), MoreMembers(more), rest);
  }

  // ----- Whatever is accepted is written

  lemma FirstOf(ts: seq<Token>)
    requires ts != []
    ensures ts == [ts[0]] + ts[1..]
  {
  }

  /** A value is read off the tokens, and what follows it is accepted as what follows a value. */
  lemma {:induction false} ValueRead(stack: seq<Frame>, ts: seq<Token>) returns (j: Json, rest: seq<Token>)
    requires ts != [] && AcceptsValue(stack, ts)
    ensures Valid(j) && ts == Tokens(j) + rest && Accepts(After(stack), stack, rest)
    decreases |ts|, 1
  {
    FirstOf(ts);
    match ts[0]
    case Str(_) => j, rest := Leaf(ts[0]), ts[1..];
    case Scalar(_) => j, rest := Leaf(ts[0]), ts[1..];
    case Punct(c) =>
      if c == '[' {
        j, rest := ArrayRead(stack, ts[1..]);
      } else {
        j, rest := ObjectRead(stack, ts[1..]);
      }
  }

  lemma {:induction false} ArrayRead(stack: seq<Frame>, ts: seq<Token>) returns (j: Json, rest: seq<Token>)
    requires Accepts(ValueOrEnd, stack + [Arr], ts)
    ensures Valid(j) && [Punct('[')] + ts == Tokens(j) + rest && Accepts(After(stack), stack, rest)
    decreases |ts|, 2
  {
    PoppedPushed(stack, Arr);
    FirstOf(ts);
    if ts[0] == Punct(']') {
      j, rest := Array(NoItems), ts[1..];
      assert [Punct('[')] + ([Punct(']')] + rest) == Tokens(j) + rest;
    } else {
      var first, after := ValueRead(stack + [Arr], ts);
      var more;
      more, rest := ItemsRead(stack, after);
      j := Array(Item(first, more));
      Regroup(Punct('['), Tokens(first), MoreItems(more), rest);
    }
  }

  lemma {:induction false} ItemsRead(stack: seq<Frame>, ts: seq<Token>) returns (items: Items, rest: seq<Token>)
    requires Accepts(CommaOrEnd, stack + [Arr], ts)
    ensures ValidItems(items) && ts == MoreItems(items) + rest && Accepts(After(stack), stack, rest)
    decreases |ts|, 0
  {
    PoppedPushed(stack, Arr);
    FirstOf(ts);
    if ts[0] == Punct(',') {
      var first, after := ValueRead(stack + [Arr], ts[1..]);
      var more;
      more, rest := ItemsRead(stack, after);
      items := Item(first, more);
      Regroup(Punct(','), Tokens(first), MoreItems(more), rest);
    } else {
      items, rest := NoItems, ts[1..];
    }
  }

  lemma {:induction false} ObjectRead(stack: seq<Frame>, ts: seq<Token>) returns (j: Json, rest: seq<Token>)
    requires Accepts(KeyOrEnd, stack + [Obj], ts)
    ensures Valid(j) && [Punct('{')] + ts == Tokens(j) + rest && Accepts(After(stack), stack, rest)
    decreases |ts|, 2
  {
    PoppedPushed(stack, Obj);
    FirstOf(ts);
    if ts[0] == Punct('}') {
      j, rest := Object(NoMembers), ts[1..];
      assert [Punct('{')] + ([Punct('}')] + rest) == Tokens(j) + rest;
    } else {
      var value, more;
      value, more, rest := MemberRead(stack, ts);
      j := Object(Member(ts[0].raw, value, more));
      RegroupMember(Punct('{'), ts[0].raw, Tokens(value), MoreMembers(more), rest);
    }
  }

  lemma {:induction false} MemberRead(stack: seq<Frame>, ts: seq<Token>)
      returns (value: Json, more: Members, rest: seq<Token>)
    requires ts != [] && ts[0].Str? && Accepts(Colon, stack + [Obj], ts[1..])
    ensures Valid(value) && ValidMembers(more) && Accepts(After(stack), stack, rest)
    ensures ts == [Str(ts[0].raw)] + ([Punct(':')] + (Tokens(value) + (MoreMembers(more) + rest)))
    decreases |ts|, 1
  {
    FirstOf(ts);
    FirstOf(ts[1..]);
    var after;
    value, after := ValueRead(stack + [Obj], ts[1..][1..]);
    more, rest := MembersRead(stack, after);
  }

  lemma {:induction false} MembersRead(stack: seq<Frame>, ts: seq<Token>) returns (members: Members, rest: seq<Token>)
    requires Accepts(CommaOrEnd, stack + [Obj], ts)
    ensures ValidMembers(members) && ts == MoreMembers(members) + rest && Accepts(After(stack), stack, rest)
    decreases |ts|, 0
  {
    PoppedPushed(stack, Obj);
    FirstOf(ts);
    if ts[0] == Punct(',') {
      FirstOf(ts[1..]);
      var value, more;
      value, more, rest := MemberRead(stack, ts[1..]);
      members := Member(ts[1].raw, value, more);
      RegroupMember(Punct(','), ts[1].raw, Tokens(value), MoreMembers(more), rest);
    } else {
      members, rest := NoMembers, ts[1..];
    }
  }

  ghost predicate Written(ts: seq<Token>) {
    exists j :: Valid(j) && Tokens(j) == ts
  }

  /** The texts that load are those whose tokens are a value written out. */
  lemma AcceptsExactly(ts: seq<Token>)
    ensures Accepts(Value, [], ts) <==> Written(ts)
  {
    if Accepts(Value, [], ts) {
      var j, rest := ValueRead([], ts);
      assert rest == [] && Tokens(j) + [] == Tokens(j);
    }
    if Written(ts) {
      var j :| Valid(j) && Tokens(j) == ts;
      ValueAccepted(j, [], []);
      assert Tokens(j) + [] == ts;
    }
  }

  // ----- Numbers

  predicate DigitsOnly(s: string) {
    s != "" && forall k | 0 <= k < |s| :: Digit(s[k])
  }

  predicate WholePart(s: string) {
    DigitsOnly(s) && (s[0] == '0' ==> s == "0")
  }

  predicate FractionPart(s: string) {
    s != "" ==> s[0] == '.' && DigitsOnly(s[1..])
  }

  predicate ExponentPart(s: string) {
    s != "" ==>
      && (s[0] == 'e' || s[0] == 'E')
      && (DigitsOnly(s[1..]) || (|s| > 1 && (s[1] == '+' || s[1] == '-') && DigitsOnly(s[2..])))
  }

  /** A sign, a whole part without superfluous zeros, a fraction and an exponent (section 6 of RFC 8259). */
  predicate NumberParts(raw: string, sign: string, whole: string, fraction: string, exponent: string) {
    && raw == sign + (whole + (fraction + exponent))
    && (sign == "" || sign == "-") && WholePart(whole) && FractionPart(fraction) && ExponentPart(exponent)
  }

  lemma {:induction false} SkipDigitsCuts(s: string)
    ensures |SkipDigits(s)| <= |s| && s == s[..|s| - |SkipDigits(s)|] + SkipDigits(s)
    ensures forall k | 0 <= k < |s| - |SkipDigits(s)| :: Digit(s[k])
    ensures SkipDigits(s) != "" ==> !Digit(SkipDigits(s)[0])
  {
    if s != "" && Digit(s[0]) {
      SkipDigitsCuts(s[1..]);
      assert forall k | 0 < k < |s| :: s[k] == s[1..][k - 1];
      assert s[|s| - |SkipDigits(s)|..] == SkipDigits(s);
    }
  }

  lemma {:induction false} SkipDigitsDrops(digits: string, rest: string)
    requires (forall k | 0 <= k < |digits| :: Digit(digits[k])) && (rest == "" || !Digit(rest[0]))
    ensures SkipDigits(digits + rest) == rest
  {
    if digits == "" {
      assert digits + rest == rest;
    } else {
      assert (digits + rest)[1..] == digits[1..] + rest;
      SkipDigitsDrops(digits[1..], rest);
    }
  }

  lemma ExponentExactly(s: string)
    requires s != ""
    ensures ExponentOk(s) <==> ExponentPart(s)
  {
    var digits := if |s| >= 2 && (s[1] == '+' || s[1] == '-') then s[2..] else s[1..];
    SkipDigitsCuts(digits);
    if DigitsOnly(digits) {
      SkipDigitsDrops(digits, "");
      assert digits + "" == digits;
    }
  }

  lemma FractionCut(s: string) returns (fraction: string, rest: string)
    ensures s == fraction + rest && FractionPart(fraction)
    ensures rest == if |s| >= 2 && s[0] == '.' && Digit(s[1]) then SkipDigits(s[1..]) else s
  {
    if |s| >= 2 && s[0] == '.' && Digit(s[1]) {
      rest := SkipDigits(s[1..]);
      SkipDigitsCuts(s[1..]);
      fraction := s[..|s| - |rest|];
      assert fraction[1..] == s[1..][..|s[1..]| - |rest|];
    } else {
      fraction, rest := "", s;
    }
  }

  lemma WholeCut(s: string) returns (whole: string, rest: string)
    requires s != "" && Digit(s[0])
    ensures s == whole + rest && WholePart(whole)
    ensures rest == if s[0] == '0' then s[1..] else SkipDigits(s)
  {
    if s[0] == '0' {
      whole, rest := "0", s[1..];
    } else {
      rest := SkipDigits(s);
      SkipDigitsCuts(s);
      whole := s[..|s| - |rest|];
    }
  }

  lemma NumberCut(raw: string) returns (sign: string, whole: string, fraction: string, exponent: string)
    requires NumberOk(raw)
    ensures NumberParts(raw, sign, whole, fraction, exponent)
  {
    sign := if raw[0] == '-' then "-" else "";
    var unsigned := if raw[0] == '-' then raw[1..] else raw;
    assert raw == sign + unsigned;
    var rest;
    whole, rest := WholeCut(unsigned);
    fraction, exponent := FractionCut(rest);
    if exponent != "" {
      ExponentExactly(exponent);
    }
  }

  lemma FractionRead(fraction: string, exponent: string)
    requires FractionPart(fraction) && ExponentPart(exponent)
    ensures var s := fraction + exponent;
            (if |s| >= 2 && s[0] == '.' && Digit(s[1]) then SkipDigits(s[1..]) else s) == exponent
  {
    var s := fraction + exponent;
    if fraction != "" {
      assert s[1..] == fraction[1..] + exponent && s[1] == fraction[1..][0];
      SkipDigitsDrops(fraction[1..], exponent);
    } else {
      assert s == exponent;
    }
  }

  lemma WholeRead(whole: string, rest: string)
    requires WholePart(whole) && (rest == "" || !Digit(rest[0]))
    ensures var s := whole + rest;
            Digit(s[0]) && (if s[0] == '0' then s[1..] else SkipDigits(s)) == rest
  {
    var s := whole + rest;
    assert s[0] == whole[0];
    if whole[0] != '0' {
      SkipDigitsDrops(whole, rest);
    }
  }

  lemma PartsRead(raw: string, sign: string, whole: string, fraction: string, exponent: string)
    requires NumberParts(raw, sign, whole, fraction, exponent)
    ensures NumberOk(raw)
  {
    var rest := fraction + exponent;
    var unsigned := whole + rest;
    WholeRead(whole, rest);
    FractionRead(fraction, exponent);
    assert unsigned[0] != '-';
    assert (if raw[0] == '-' then raw[1..] else raw) == unsigned;
    if exponent != "" {
      ExponentExactly(exponent);
    }
  }

  ghost predicate IsNumber(raw: string) {
    exists sign, whole, fraction, exponent :: NumberParts(raw, sign, whole, fraction, exponent)
  }

  lemma NumberExactly(raw: string)
    ensures NumberOk(raw) <==> IsNumber(raw)
  {
    if NumberOk(raw) {
      var sign, whole, fraction, exponent := NumberCut(raw);
    }
    if IsNumber(raw) {
      var sign, whole, fraction, exponent :| NumberParts(raw, sign, whole, fraction, exponent);
      PartsRead(raw, sign, whole, fraction, exponent);
    }
  }
}
