/**
 Is a bug still open for the installed operator: the release found in a fix version's name, the order of
 versions, the answer, and the two caches in front of the issue tracker.
 */
module JiraVersions {
  import opened Wrappers
  import opened Texts

  // ----- Releases in text

  predicate Digits(s: string) {
    s != "" && forall k | 0 <= k < |s| :: IsDigit(s[k])
  }

  /** The digits from a position on. */
  function Run(s: string, i: nat): (n: nat)
    requires i <= |s|
    ensures i + n <= |s|
    ensures forall k | i <= k < i + n :: IsDigit(s[k])
    ensures i + n < |s| ==> !IsDigit(s[i + n])
    decreases |s| - i
  {
    if i < |s| && IsDigit(s[i]) then 1 + Run(s, i + 1) else 0
  }

  /** A dot and digits after it: how much of that stands at a position, or nothing. */
  function Dotted(s: string, i: nat): (n: nat)
    requires i <= |s|
    ensures i + n <= |s|
  {
    if i < |s| && s[i] == '.' && Run(s, i + 1) > 0 then 1 + Run(s, i + 1) else 0
  }

  /** The end of the match of `\d+\.\d+(?:\.\d+)?` at a position. */
  function MatchAt(s: string, i: nat): (end: Option<nat>)
    requires i <= |s|
    ensures end.Some? ==> i < end.value <= |s|
  {
    var major := i + Run(s, i);
    var minor := major + Dotted(s, major);
    if major == i || minor == major then None else Some(minor + Dotted(s, minor))
  }

  datatype Span = Span(from: nat, to: nat)

  /** The leftmost match from a position on. */
  function Search(s: string, i: nat): (r: Option<Span>)
    requires i <= |s|
    ensures r.Some? ==> r.value.from <= r.value.to <= |s|
    decreases |s| - i
  {
    if MatchAt(s, i).Some? then Some(Span(i, MatchAt(s, i).value))
    else if i == |s| then None
    else Search(s, i + 1)
  }

  /** The text between the dots. */
  function Parts(t: string): (ps: seq<string>)
    ensures ps != []
  {
    if t == "" then [""]
    else if t[0] == '.' then [""] + Parts(t[1..])
    else [[t[0]] + Parts(t[1..])[0]] + Parts(t[1..])[1..]
  }

  /** What the pattern describes: two or three numbers with dots between them. */
  predicate IsRelease(t: string) {
    2 <= |Parts(t)| <= 3 && forall k | 0 <= k < |Parts(t)| :: Digits(Parts(t)[k])
  }

  lemma {:induction false} PartsOfDigits(d: string)
    requires forall k | 0 <= k < |d| :: IsDigit(d[k])
    ensures Parts(d) == [d]
  {
    if d != "" {
      PartsOfDigits(d[1..]);
      assert d == [d[0]] + d[1..];
    }
  }

  lemma {:induction false} PartsOfDotted(d: string, rest: string)
    requires forall k | 0 <= k < |d| :: IsDigit(d[k])
    ensures Parts(d + "." + rest) == [d] + Parts(rest)
  {
    var t := d + "." + rest;
    if d == "" {
      assert t[1..] == rest;
    } else {
      assert t[1..] == d[1..] + "." + rest;
      PartsOfDotted(d[1..], rest);
      assert d == [d[0]] + d[1..];
    }
  }

  /** A number, then nothing or a dot and the parts after it. */
  lemma {:induction false} PartsAt(s: string, i: nat, j: nat)
    requires i <= j <= |s|
    requires Digits(Parts(s[i..j])[0])
    ensures var n := |Parts(s[i..j])[0]|;
            && i + n <= j
            && (forall k | i <= k < i + n :: IsDigit(s[k]))
            && (|Parts(s[i..j])| == 1 <==> i + n == j)
            && (i + n < j ==> s[i + n] == '.' && Parts(s[i + n + 1..j]) == Parts(s[i..j])[1..])
    decreases j - i
  {
    var t := s[i..j];
    assert t[1..] == s[i + 1..j];
    assert IsDigit(Parts(t)[0][0]);
    assert Parts(t)[0] == [t[0]] + Parts(s[i + 1..j])[0];
    if Parts(s[i + 1..j])[0] == "" {
      EmptyFirst(s[i + 1..j]);
      if i + 1 < j {
        assert s[i + 1..j][1..] == s[i + 2..j];
      }
    } else {
      var rest := Parts(s[i + 1..j])[0];
      assert forall k | 0 <= k < |rest| :: rest[k] == Parts(t)[0][k + 1];
      PartsAt(s, i + 1, j);
    }
  }

  lemma EmptyFirst(t: string)
    requires Parts(t)[0] == ""
    ensures t == "" || (t[0] == '.' && Parts(t)[1..] == Parts(t[1..]))
  {
  }

  lemma TwoNumbers(a: string, b: string)
    requires Digits(a) && Digits(b)
    ensures IsRelease(a + "." + b)
  {
    PartsOfDigits(b);
    PartsOfDotted(a, b);
  }

  lemma ThreeNumbers(a: string, b: string, c: string)
    requires Digits(a) && Digits(b) && Digits(c)
    ensures IsRelease(a + "." + (b + "." + c))
  {
    PartsOfDigits(c);
    PartsOfDotted(b, c);
    PartsOfDotted(a, b + "." + c);
  }

  lemma DottedDigits(s: string, i: nat)
    requires i <= |s| && Dotted(s, i) > 0
    ensures i < i + Dotted(s, i) <= |s| && s[i] == '.' && Digits(s[i + 1..i + Dotted(s, i)])
  {
  }

  lemma CutAtDot(s: string, i: nat, dot: nat, j: nat)
    requires i <= dot < j <= |s| && s[dot] == '.'
    ensures s[i..j] == s[i..dot] + "." + s[dot + 1..j]
  {
  }

  lemma MatchIsRelease(s: string, i: nat)
    requires i <= |s| && MatchAt(s, i).Some?
    ensures IsRelease(s[i..MatchAt(s, i).value])
  {
    var major := i + Run(s, i);
    var minor := major + Dotted(s, major);
    DottedDigits(s, major);
    var a, b := s[i..major], s[major + 1..minor];
    var end := MatchAt(s, i).value;
    if end == minor {
      TwoNumbers(a, b);
      CutAtDot(s, i, major, end);
    } else {
      DottedDigits(s, minor);
      var c := s[minor + 1..end];
      ThreeNumbers(a, b, c);
      CutAtDot(s, i, major, end);
      CutAtDot(s, major + 1, minor, end);
    }
  }

  lemma {:induction false} RunTo(s: string, i: nat, j: nat)
    requires i <= j <= |s| && forall k | i <= k < j :: IsDigit(s[k])
    ensures i + Run(s, i) >= j
    ensures j < |s| && !IsDigit(s[j]) ==> i + Run(s, i) == j
  {
  }

  lemma DottedTo(s: string, i: nat, j: nat)
    requires i < |s| && s[i] == '.' && i + 1 < j <= |s| && forall k | i + 1 <= k < j :: IsDigit(s[k])
    ensures i + Dotted(s, i) >= j
    ensures j < |s| && !IsDigit(s[j]) ==> i + Dotted(s, i) == j
  {
    RunTo(s, i + 1, j);
  }

  lemma MatchTwo(s: string, i: nat, major: nat, minor: nat)
    requires i < major < |s| && s[major] == '.' && major + 1 < minor <= |s|
    requires (forall k | i <= k < major :: IsDigit(s[k])) && forall k | major < k < minor :: IsDigit(s[k])
    ensures MatchAt(s, i).Some? && minor <= MatchAt(s, i).value
    ensures minor < |s| && s[minor] == '.' ==> MatchAt(s, i).value == minor + Dotted(s, minor)
  {
    RunTo(s, i, major);
    DottedTo(s, major, minor);
  }

  predicate Numeric(ps: seq<string>) {
    forall k | 0 <= k < |ps| :: Digits(ps[k])
  }

  lemma FirstPart(s: string, i: nat, j: nat, ps: seq<string>) returns (m: nat)
    requires i <= j <= |s| && ps == Parts(s[i..j]) && Numeric(ps)
    ensures i < m <= j
    ensures forall k | i <= k < m :: IsDigit(s[k])
    ensures |ps| == 1 ==> m == j
    ensures |ps| > 1 ==> m < j && s[m] == '.' && Parts(s[m + 1..j]) == ps[1..] && Numeric(ps[1..])
  {
    assert Digits(ps[0]);
    PartsAt(s, i, j);
    m := i + |ps[0]|;
  }

  /** The pattern reaches as far as any release that starts where it does. */
  lemma ReleaseMatches(s: string, i: nat, j: nat)
    requires i <= j <= |s| && IsRelease(s[i..j])
    ensures MatchAt(s, i).Some? && j <= MatchAt(s, i).value
  {
    var ps := Parts(s[i..j]);
    assert Numeric(ps);
    ReleaseMatchesParts(s, i, j, ps);
  }

  lemma ReleaseMatchesParts(s: string, i: nat, j: nat, ps: seq<string>)
    requires i <= j <= |s| && ps == Parts(s[i..j]) && Numeric(ps) && 2 <= |ps| <= 3
    ensures MatchAt(s, i).Some? && j <= MatchAt(s, i).value
  {
    var major := FirstPart(s, i, j, ps);
    var minor := FirstPart(s, major + 1, j, ps[1..]);
    MatchTwo(s, i, major, minor);
    if |ps| == 3 {
      var end := FirstPart(s, minor + 1, j, ps[1..][1..]);
      DottedTo(s, minor, j);
    }
  }

  ghost predicate FirstRelease(s: string, i: nat, r: Option<Span>) {
    match r
    case None => forall a, b | i <= a <= b <= |s| :: !IsRelease(s[a..b])
    case Some(m) =>
      && i <= m.from <= m.to <= |s| && IsRelease(s[m.from..m.to])
      && forall a, b | i <= a <= b <= |s| && IsRelease(s[a..b]) :: m.from <= a && (a == m.from ==> b <= m.to)
  }

  lemma FoundHere(s: string, i: nat)
    requires i <= |s| && MatchAt(s, i).Some?
    ensures FirstRelease(s, i, Some(Span(i, MatchAt(s, i).value)))
  {
    MatchIsRelease(s, i);
    forall b | i <= b <= |s| && IsRelease(s[i..b]) ensures b <= MatchAt(s, i).value {
      ReleaseMatches(s, i, b);
    }
  }

  lemma NotHere(s: string, i: nat, r: Option<Span>)
    requires i < |s| && MatchAt(s, i).None? && FirstRelease(s, i + 1, r)
    ensures FirstRelease(s, i, r)
  {
    forall b | i <= b <= |s| ensures !IsRelease(s[i..b]) {
      if IsRelease(s[i..b]) {
        ReleaseMatches(s, i, b);
      }
    }
  }

  /** The search finds the first release in a text, at its full length, and misses none. */
  lemma {:induction false} SearchExact(s: string, i: nat)
    requires i <= |s|
    ensures FirstRelease(s, i, Search(s, i))
    decreases |s| - i
  {
    if MatchAt(s, i).Some? {
      FoundHere(s, i);
    } else if i < |s| {
      SearchExact(s, i + 1);
      NotHere(s, i, Search(s, i + 1));
    } else {
      assert s[i..i] == "";
    }
  }

  // ----- Versions

  /** `stage` orders what may follow the release: below zero before it, zero for nothing, above zero after it. */
  datatype Version = Version(epoch: nat, release: seq<nat>, stage: int)

  /** The release without its trailing zeros. */
  function Trimmed(r: seq<nat>): seq<nat> {
    if r != [] && r[|r| - 1] == 0 then Trimmed(r[..|r| - 1]) else r
  }

  predicate LexLess(a: seq<nat>, b: seq<nat>) {
    if b == [] then false
    else if a == [] then true
    else a[0] < b[0] || (a[0] == b[0] && LexLess(a[1..], b[1..]))
  }

  predicate Less(v: Version, w: Version) {
    if v.epoch != w.epoch then v.epoch < w.epoch
    else if Trimmed(v.release) != Trimmed(w.release) then LexLess(Trimmed(v.release), Trimmed(w.release))
    else v.stage < w.stage
  }

  function At(r: seq<nat>, k: nat): nat {
    if k < |r| then r[k] else 0
  }

  ghost predicate LessFrom(a: seq<nat>, b: seq<nat>, k: nat) {
    At(a, k) < At(b, k) && forall j: nat | j < k :: At(a, j) == At(b, j)
  }

  /** The order of releases with zeros to the right of both. */
  ghost predicate PaddedLess(a: seq<nat>, b: seq<nat>) {
    exists k: nat :: LessFrom(a, b, k)
  }

  lemma {:induction false} TrimmedAt(r: seq<nat>, k: nat)
    ensures At(Trimmed(r), k) == At(r, k)
    ensures Trimmed(r) != [] ==> Trimmed(r)[|Trimmed(r)| - 1] != 0
  {
    if r != [] && r[|r| - 1] == 0 {
      TrimmedAt(r[..|r| - 1], k);
    }
  }

  lemma {:induction false} NonZero(b: seq<nat>)
    requires b != [] && b[|b| - 1] != 0
    ensures PaddedLess([], b)
  {
    if b[0] != 0 {
      assert LessFrom([], b, 0);
    } else {
      NonZero(b[1..]);
      Shifted([], b);
    }
  }

  lemma Shifted(a: seq<nat>, b: seq<nat>)
    requires b != [] && At(a, 0) == b[0]
    ensures PaddedLess(a, b) <==> PaddedLess(if a == [] then [] else a[1..], b[1..])
  {
    var c, d := if a == [] then [] else a[1..], b[1..];
    assert forall k: nat :: At(c, k) == At(a, k + 1) && At(d, k) == At(b, k + 1);
    if PaddedLess(a, b) {
      var k: nat :| LessFrom(a, b, k);
      assert LessFrom(c, d, k - 1);
    }
    if PaddedLess(c, d) {
      var k: nat :| LessFrom(c, d, k);
      forall j: nat | j < k + 1 ensures At(a, j) == At(b, j) {
        if j > 0 {
          assert At(c, j - 1) == At(d, j - 1);
        }
      }
      assert LessFrom(a, b, k + 1);
    }
  }

  lemma {:induction false} LexIsPadded(a: seq<nat>, b: seq<nat>)
    requires a != [] ==> a[|a| - 1] != 0
    requires b != [] ==> b[|b| - 1] != 0
    ensures LexLess(a, b) <==> PaddedLess(a, b)
  {
    if b == [] {
    } else if a == [] {
      NonZero(b);
    } else if a[0] == b[0] {
      LexIsPadded(a[1..], b[1..]);
      Shifted(a, b);
    } else {
      FirstDecides(a, b);
    }
  }

  lemma FirstDecides(a: seq<nat>, b: seq<nat>)
    requires At(a, 0) != At(b, 0)
    ensures PaddedLess(a, b) <==> At(a, 0) < At(b, 0)
  {
    if PaddedLess(a, b) {
      var k: nat :| LessFrom(a, b, k);
      assert k == 0;
    }
    assert At(a, 0) < At(b, 0) ==> LessFrom(a, b, 0);
  }

  /** Comparing trimmed releases is comparing them padded with zeros: 2.25 is 2.25.0 and comes before 2.25.1. */
  lemma OrderIsPadded(a: seq<nat>, b: seq<nat>)
    ensures LexLess(Trimmed(a), Trimmed(b)) <==> PaddedLess(a, b)
  {
    forall k: nat ensures At(Trimmed(a), k) == At(a, k) && At(Trimmed(b), k) == At(b, k) {
      TrimmedAt(a, k);
      TrimmedAt(b, k);
    }
    TrimmedAt(a, 0);
    TrimmedAt(b, 0);
    LexIsPadded(Trimmed(a), Trimmed(b));
    var c, d := Trimmed(a), Trimmed(b);
    assert forall k: nat :: LessFrom(c, d, k) <==> LessFrom(a, b, k);
  }

  lemma {:induction false} LexTotal(a: seq<nat>, b: seq<nat>)
    ensures LexLess(a, b) || LexLess(b, a) || a == b
  {
    if a != [] && b != [] {
      LexTotal(a[1..], b[1..]);
      assert a == [a[0]] + a[1..] && b == [b[0]] + b[1..];
    }
  }

  lemma {:induction false} LexTransitive(a: seq<nat>, b: seq<nat>, c: seq<nat>)
    requires LexLess(a, b) && LexLess(b, c)
    ensures LexLess(a, c) && a != c
  {
    if a != [] && a[0] == b[0] == c[0] {
      LexTransitive(a[1..], b[1..], c[1..]);
    }
  }

  /** What comes after a version that is not later comes after this one. */
  lemma LessLater(v: Version, w: Version, f: Version)
    requires !Less(w, v) && Less(w, f)
    ensures Less(v, f)
  {
    var a, b, c := Trimmed(v.release), Trimmed(w.release), Trimmed(f.release);
    LexTotal(a, b);
    if LexLess(a, b) && LexLess(b, c) {
      LexTransitive(a, b, c);
    }
  }

  // ----- The answer

  datatype Fields = Fields(status: string, fixVersions: seq<string>)

  datatype Installed = NoVersion | Unparsable | Parsed(version: Version)

  datatype Csv = Csv(name: string, version: Installed)

  datatype Error = NoFixVersions | OperatorNotFound | InvalidVersion

  const CLOSED := ["closed", "resolved", "testing"]

  predicate StatusOpen(f: Fields) {
    Lower(f.status) !in CLOSED
  }

  function Number(p: string): nat
    requires Digits(p)
  {
    ValueOf(p)
  }

  function Numbers(ps: seq<string>): seq<nat>
    requires forall k | 0 <= k < |ps| :: Digits(ps[k])
  {
    seq(|ps|, k requires 0 <= k < |ps| => Number(ps[k]))
  }

  /** The version a fix version's name mentions first. */
  function FixVersion(name: string): Option<Version> {
    match Search(name, 0)
    case None => None
    case Some(m) =>
      SearchExact(name, 0);
      Some(Version(0, Numbers(Parts(name[m.from..m.to])), 0))
  }

  function FixVersions(names: seq<string>): (vs: seq<Version>)
    ensures forall v :: v in vs <==> exists k :: 0 <= k < |names| && FixVersion(names[k]) == Some(v)
  {
    if names == [] then []
    else
      var n := |names| - 1;
      assert forall k | 0 <= k < n :: names[..n][k] == names[k];
      match FixVersion(names[n])
      case None => FixVersions(names[..n])
      case Some(v) => FixVersions(names[..n]) + [v]
  }

  predicate StartsWith(s: string, prefix: string) {
    prefix <= s
  }

  predicate IsOperator(c: Csv) {
    StartsWith(c.name, "rhods") || StartsWith(c.name, "opendatahub")
  }

  /** The first operator's version. */
  function OperatorVersion(csvs: seq<Csv>): Installed {
    if csvs == [] then NoVersion
    else if IsOperator(csvs[0]) then csvs[0].version
    else OperatorVersion(csvs[1..])
  }

  predicate BeforeAll(v: Version, fixes: seq<Version>) {
    forall k | 0 <= k < |fixes| :: Less(v, fixes[k])
  }

  /** The answer for an issue whose status is a closed one. */
  function Verdict(f: Fields, csvs: seq<Csv>): Result<bool, Error> {
    var fixes := FixVersions(f.fixVersions);
    if fixes == [] then Err(NoFixVersions)
    else match OperatorVersion(csvs)
      case NoVersion => Err(OperatorNotFound)
      case Unparsable => Err(InvalidVersion)
      case Parsed(v) => Ok(BeforeAll(v, fixes))
  }

  ghost predicate FixedIn(f: Fields, v: Version) {
    exists k :: 0 <= k < |f.fixVersions| && FixVersion(f.fixVersions[k]).Some?
                && !Less(v, FixVersion(f.fixVersions[k]).value)
  }

  lemma {:induction false} FixedInList(f: Fields, v: Version)
    ensures FixedIn(f, v) <==> !BeforeAll(v, FixVersions(f.fixVersions))
  {
    var fixes := FixVersions(f.fixVersions);
    if FixedIn(f, v) {
      var k :| 0 <= k < |f.fixVersions| && FixVersion(f.fixVersions[k]).Some?
              && !Less(v, FixVersion(f.fixVersions[k]).value);
      assert FixVersion(f.fixVersions[k]).value in fixes;
    }
    if !BeforeAll(v, fixes) {
      var j :| 0 <= j < |fixes| && !Less(v, fixes[j]);
      assert fixes[j] in fixes;
    }
  }

  /** Closed means: some fix version names a release that is not after the operator's. */
  lemma ClosedExactly(f: Fields, csvs: seq<Csv>)
    ensures Verdict(f, csvs) == Ok(false)
            <==> OperatorVersion(csvs).Parsed? && FixedIn(f, OperatorVersion(csvs).version)
  {
    if OperatorVersion(csvs).Parsed? {
      FixedInList(f, OperatorVersion(csvs).version);
    }
  }

  /** An operator of no earlier version, and the same fix versions or more: a closed bug stays closed. */
  lemma ClosedStays(f: Fields, csvs: seq<Csv>, g: Fields, later: seq<Csv>)
    requires Verdict(f, csvs) == Ok(false)
    requires forall name | name in f.fixVersions :: name in g.fixVersions
    requires OperatorVersion(later).Parsed?
    requires !Less(OperatorVersion(later).version, OperatorVersion(csvs).version)
    ensures Verdict(g, later) == Ok(false)
  {
    ClosedExactly(f, csvs);
    var v, w := OperatorVersion(csvs).version, OperatorVersion(later).version;
    var k :| 0 <= k < |f.fixVersions| && FixVersion(f.fixVersions[k]).Some?
            && !Less(v, FixVersion(f.fixVersions[k]).value);
    var name := f.fixVersions[k];
    assert name in g.fixVersions;
    var j :| 0 <= j < |g.fixVersions| && g.fixVersions[j] == name;
    if Less(w, FixVersion(name).value) {
      LessLater(v, w, FixVersion(name).value);
    }
    ClosedExactly(g, later);
  }

  // ----- The caches

  datatype Call = Call(id: string, remote: Option<Fields>, csvs: seq<Csv>)

  /** `get_jira_issue_fields` and `is_jira_issue_open` keep their results, not their failures. */
  class IssueCache {
    var fields: map<string, Fields>
    var verdicts: map<string, bool>

    ghost predicate Valid()
      reads this
    {
      forall id | id in verdicts && !verdicts[id] :: id in fields && !StatusOpen(fields[id])
    }

    constructor ()
      ensures Valid() && fields == map[] && verdicts == map[]
    {
      fields, verdicts := map[], map[];
    }

    /** What the tracker answers now is `remote`; None when it cannot be reached. */
    method GetIssueFields(id: string, remote: Option<Fields>) returns (f: Option<Fields>)
      modifies this`fields
      ensures id in old(fields) ==> f == Some(old(fields)[id]) && fields == old(fields)
      ensures id !in old(fields) ==>
        f == remote && fields == if remote.Some? then old(fields)[id := remote.value] else old(fields)
    {
      if id in fields {
        return Some(fields[id]);
      }
      f := remote;
      if remote.Some? {
        fields := fields[id := remote.value];
      }
    }

    method IsIssueOpen(id: string, remote: Option<Fields>) returns (open: bool)
      requires Valid()
      modifies this
      ensures Valid() && Grown(old(fields), fields) && Grown(old(verdicts), verdicts)
      ensures id in verdicts && open == verdicts[id]
      ensures id !in old(verdicts) ==>
        open == if id in old(fields) then StatusOpen(old(fields)[id]) else remote.None? || StatusOpen(remote.value)
    {
      if id in verdicts {
        return verdicts[id];
      }
      var f := GetIssueFields(id, remote);
      open := f.None? || StatusOpen(f.value);
      verdicts := verdicts[id := open];
    }

    /** After the first answer the tracker no longer matters. */
    method IsJiraOpen(id: string, remote: Option<Fields>, csvs: seq<Csv>) returns (r: Result<bool, Error>)
      requires Valid()
      modifies this
      ensures Valid() && Grown(old(fields), fields) && Grown(old(verdicts), verdicts)
      ensures Answered(id, csvs, r)
    {
      var open := IsIssueOpen(id, remote);
      if open {
        return Ok(true);
      }
      var f := GetIssueFields(id, remote);
      var fixes := FixVersions(f.value.fixVersions);
      if fixes == [] {
        return Err(NoFixVersions);
      }
      var operator: Installed := NoVersion;
      var n := 0;
      while n < |csvs|
        invariant 0 <= n <= |csvs|
        invariant operator == NoVersion && OperatorVersion(csvs) == OperatorVersion(csvs[n..])
      {
        if IsOperator(csvs[n]) {
          operator := csvs[n].version;
          break;
        }
        n := n + 1;
      }
      assert operator == OperatorVersion(csvs);
      match operator {
        case NoVersion => r := Err(OperatorNotFound);
        case Unparsable => r := Err(InvalidVersion);
        case Parsed(v) => r := Ok(BeforeAll(v, fixes));
      }
    }

    ghost predicate Answered(id: string, csvs: seq<Csv>, r: Result<bool, Error>)
      reads this
    {
      && id in verdicts && (!verdicts[id] ==> id in fields)
      && r == if verdicts[id] then Ok(true) else Verdict(fields[id], csvs)
    }

    /**
     Any run of calls, with the tracker changing or failing in between: a bug answered closed is answered closed
     at every later call for an operator of no earlier version.
     */
    method Session(calls: seq<Call>) returns (rs: seq<Result<bool, Error>>)
      requires Valid()
      modifies this
      ensures |rs| == |calls|
      ensures forall i, j | 0 <= i < j < |calls| && calls[i].id == calls[j].id && rs[i] == Ok(false) ::
        NoEarlier(calls[i].csvs, calls[j].csvs) ==> rs[j] == Ok(false)
      ensures forall i, j | 0 <= i < j < |calls| && calls[i].id == calls[j].id && calls[i].csvs == calls[j].csvs ::
        rs[i] == rs[j]
    {
      rs := [];
      var n := 0;
      while n < |calls|
        invariant 0 <= n <= |calls| && |rs| == n && Valid()
        invariant forall k | 0 <= k < n :: Answered(calls[k].id, calls[k].csvs, rs[k])
      {
        var c := calls[n];
        var r := IsJiraOpen(c.id, c.remote, c.csvs);
        rs := rs + [r];
        n := n + 1;
      }
      forall i, j | 0 <= i < j < |calls| && calls[i].id == calls[j].id && rs[i] == Ok(false)
                    && NoEarlier(calls[i].csvs, calls[j].csvs)
        ensures rs[j] == Ok(false)
      {
        assert Answered(calls[i].id, calls[i].csvs, rs[i]) && Answered(calls[j].id, calls[j].csvs, rs[j]);
        var f := fields[calls[i].id];
        ClosedStays(f, calls[i].csvs, f, calls[j].csvs);
      }
    }
  }

  predicate NoEarlier(csvs: seq<Csv>, later: seq<Csv>) {
    && OperatorVersion(csvs).Parsed? && OperatorVersion(later).Parsed?
    && !Less(OperatorVersion(later).version, OperatorVersion(csvs).version)
  }

  predicate Grown<V(==)>(was: map<string, V>, now: map<string, V>) {
    forall id | id in was :: id in now && now[id] == was[id]
  }
}
