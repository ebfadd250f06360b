/** What `JiraVersions` reads out of names, statuses and operators, in the terms of whoever writes them. */
module JiraRules {
  import opened Wrappers
  import opened Texts
  import opened JiraVersions

  // ----- The numbers of a fix version

  lemma {:induction false} SearchSkips(s: string, i: nat, n: nat)
    requires i <= n <= |s| && forall k | i <= k < n :: !IsDigit(s[k])
    ensures Search(s, i) == Search(s, n)
    decreases n - i
  {
    if i < n {
      SearchSkips(s, i + 1, n);
    }
  }

  /** After a dot and three numbers nothing more is taken. */
  lemma MatchThree(s: string, i: nat, major: nat, minor: nat, end: nat)
    requires i < major < minor < end <= |s| && major + 1 < minor && minor + 1 < end && s[major] == '.' == s[minor]
    requires (forall k | i <= k < major :: IsDigit(s[k])) && (forall k | major < k < minor :: IsDigit(s[k]))
    requires (forall k | minor < k < end :: IsDigit(s[k])) && (end < |s| ==> !IsDigit(s[end]))
    ensures MatchAt(s, i) == Some(end)
  {
    MatchTwo(s, i, major, minor);
    DottedTo(s, minor, end);
  }

  /** Two numbers that nothing like a third follows. */
  lemma MatchPair(s: string, i: nat, major: nat, end: nat)
    requires i < major < end <= |s| && major + 1 < end && s[major] == '.'
    requires (forall k | i <= k < major :: IsDigit(s[k])) && (forall k | major < k < end :: IsDigit(s[k]))
    requires end < |s| ==> !IsDigit(s[end]) && (s[end] == '.' ==> end + 1 == |s| || !IsDigit(s[end + 1]))
    ensures MatchAt(s, i) == Some(end)
  {
    RunTo(s, i, major);
    DottedTo(s, major, end);
  }

  lemma DigitsAt(s: string, i: nat, j: nat)
    requires i <= j <= |s| && Digits(s[i..j])
    ensures i < j && forall k | i <= k < j :: IsDigit(s[k])
  {
    assert forall k | i <= k < j :: s[k] == s[i..j][k - i];
  }

  /** A release that nothing like one stands before is read part by part. */
  lemma ReadAt(s: string, i: nat, end: nat, ps: seq<string>)
    requires i < end <= |s| && (forall k | 0 <= k < i :: !IsDigit(s[k])) && MatchAt(s, i) == Some(end)
    requires Parts(s[i..end]) == ps && Numeric(ps)
    ensures FixVersion(s) == Some(Version(0, Numbers(ps), 0))
  {
    SearchSkips(s, 0, i);
  }

  lemma CutThree(prefix: string, x: string, y: string, z: string, suffix: string) returns (major: nat, minor: nat)
    requires x != "" && y != "" && z != ""
    ensures var release := x + "." + (y + "." + z);
            var s, i, end := prefix + release + suffix, |prefix|, |prefix| + |release|;
            && i < major < minor < end <= |s| && s[major] == '.' == s[minor] && s[..i] == prefix && s[i..end] == release
            && s[i..major] == x && s[major + 1..minor] == y && s[minor + 1..end] == z && s[end..] == suffix
  {
    major, minor := |prefix| + |x|, |prefix| + |x| + 1 + |y|;
  }

  lemma ReadThree(prefix: string, x: string, y: string, z: string, suffix: string)
    requires Digits(x) && Digits(y) && Digits(z) && (forall k | 0 <= k < |prefix| :: !IsDigit(prefix[k]))
    requires suffix == "" || !IsDigit(suffix[0])
    ensures FixVersion(prefix + (x + "." + (y + "." + z)) + suffix)
         == Some(Version(0, [ValueOf(x), ValueOf(y), ValueOf(z)], 0))
  {
    var release := x + "." + (y + "." + z);
    var major, minor := CutThree(prefix, x, y, z, suffix);
    ReadThreeIn(prefix + release + suffix, |prefix|, major, minor, |prefix| + |release|, x, y, z);
  }

  lemma ReadThreeIn(s: string, i: nat, major: nat, minor: nat, end: nat, x: string, y: string, z: string)
    requires i < major < minor < end <= |s| && s[major] == '.' == s[minor]
    requires s[i..major] == x && s[major + 1..minor] == y && s[minor + 1..end] == z
    requires s[i..end] == x + "." + (y + "." + z) && Digits(x) && Digits(y) && Digits(z)
    requires (forall k | 0 <= k < i :: !IsDigit(s[..i][k])) && (s[end..] == "" || !IsDigit(s[end..][0]))
    ensures FixVersion(s) == Some(Version(0, [ValueOf(x), ValueOf(y), ValueOf(z)], 0))
  {
    DigitsAt(s, i, major);
    DigitsAt(s, major + 1, minor);
    DigitsAt(s, minor + 1, end);
    assert forall k | 0 <= k < i :: s[..i][k] == s[k];
    assert end < |s| ==> s[end] == s[end..][0];
    MatchThree(s, i, major, minor, end);
    ThreeParts(x, y, z);
    ThreeNumbersOf(x, y, z);
    ReadAt(s, i, end, [x, y, z]);
  }

  lemma TwoNumbersOf(x: string, y: string)
    requires Digits(x) && Digits(y)
    ensures Numeric([x, y]) && Numbers([x, y]) == [ValueOf(x), ValueOf(y)]
  {
  }

  lemma ThreeNumbersOf(x: string, y: string, z: string)
    requires Digits(x) && Digits(y) && Digits(z)
    ensures Numeric([x, y, z]) && Numbers([x, y, z]) == [ValueOf(x), ValueOf(y), ValueOf(z)]
  {
  }

  lemma ThreeParts(x: string, y: string, z: string)
    requires Digits(x) && Digits(y) && Digits(z)
    ensures Parts(x + "." + (y + "." + z)) == [x, y, z]
  {
    PartsOfDigits(z);
    PartsOfDotted(y, z);
    PartsOfDotted(x, y + "." + z);
  }

  lemma ReadPair(prefix: string, x: string, y: string, suffix: string)
    requires Digits(x) && Digits(y) && (forall k | 0 <= k < |prefix| :: !IsDigit(prefix[k]))
    requires suffix == "" || (!IsDigit(suffix[0]) && (suffix[0] == '.' ==> |suffix| == 1 || !IsDigit(suffix[1])))
    ensures FixVersion(prefix + (x + "." + y) + suffix) == Some(Version(0, [ValueOf(x), ValueOf(y)], 0))
  {
    var release := x + "." + y;
    var major := CutPair(prefix, x, y, suffix);
    ReadPairIn(prefix + release + suffix, |prefix|, major, |prefix| + |release|, x, y);
  }

  lemma ReadPairIn(s: string, i: nat, major: nat, end: nat, x: string, y: string)
    requires i < major < end <= |s| && s[major] == '.' && s[i..major] == x && s[major + 1..end] == y
    requires s[i..end] == x + "." + y && Digits(x) && Digits(y)
    requires forall k | 0 <= k < i :: !IsDigit(s[..i][k])
    requires var suffix := s[end..];
             suffix == "" || (!IsDigit(suffix[0]) && (suffix[0] == '.' ==> |suffix| == 1 || !IsDigit(suffix[1])))
    ensures FixVersion(s) == Some(Version(0, [ValueOf(x), ValueOf(y)], 0))
  {
    DigitsAt(s, i, major);
    DigitsAt(s, major + 1, end);
    assert forall k | 0 <= k < i :: s[..i][k] == s[k];
    assert end < |s| ==> s[end] == s[end..][0];
    assert end + 1 < |s| ==> s[end + 1] == s[end..][1];
    MatchPair(s, i, major, end);
    PartsOfDigits(y);
    PartsOfDotted(x, y);
    TwoNumbersOf(x, y);
    ReadAt(s, i, end, [x, y]);
  }

  lemma CutPair(prefix: string, x: string, y: string, suffix: string) returns (major: nat)
    requires x != "" && y != ""
    ensures var release := x + "." + y;
            var s, i, end := prefix + release + suffix, |prefix|, |prefix| + |release|;
            && i < major < end <= |s| && s[major] == '.' && s[..i] == prefix && s[i..end] == release
            && s[i..major] == x && s[major + 1..end] == y && s[end..] == suffix
  {
    major := |prefix| + |x|;
  }

  /** A name holding a release, with any text without digits before it and none after it that goes on with the number:
      its numbers are read as written. */
  lemma NumbersRead(prefix: string, a: nat, b: nat, c: nat, suffix: string)
    requires (forall k | 0 <= k < |prefix| :: !IsDigit(prefix[k])) && (suffix == "" || !IsDigit(suffix[0]))
    ensures FixVersion(prefix + (Decimal(a) + "." + (Decimal(b) + "." + Decimal(c))) + suffix)
         == Some(Version(0, [a, b, c], 0))
    ensures (suffix != "" && suffix[0] == '.' ==> |suffix| == 1 || !IsDigit(suffix[1])) ==>
              FixVersion(prefix + (Decimal(a) + "." + Decimal(b)) + suffix) == Some(Version(0, [a, b], 0))
  {
    DecimalRoundTrip(a);
    DecimalRoundTrip(b);
    DecimalRoundTrip(c);
    ReadThree(prefix, Decimal(a), Decimal(b), Decimal(c), suffix);
    if suffix != "" && suffix[0] == '.' ==> |suffix| == 1 || !IsDigit(suffix[1]) {
      ReadPair(prefix, Decimal(a), Decimal(b), suffix);
    }
  }

  // ----- The order

  ghost predicate SamePadded(a: seq<nat>, b: seq<nat>) {
    forall k: nat :: JiraVersions.At(a, k) == JiraVersions.At(b, k)
  }

  lemma TrimmedSame(a: seq<nat>, b: seq<nat>)
    ensures Trimmed(a) == Trimmed(b) <==> SamePadded(a, b)
  {
    OrderIsPadded(a, b);
    OrderIsPadded(b, a);
    LexTotal(Trimmed(a), Trimmed(b));
    if Trimmed(a) == Trimmed(b) {
      forall k: nat ensures JiraVersions.At(a, k) == JiraVersions.At(b, k) {
        TrimmedAt(a, k);
        TrimmedAt(b, k);
      }
    }
  }

  /** Versions compare by epoch, then by release with zeros to the right, then by what follows the release. */
  lemma OrderExactly(v: Version, w: Version)
    ensures Less(v, w) <==>
              || v.epoch < w.epoch
              || (v.epoch == w.epoch && PaddedLess(v.release, w.release))
              || (v.epoch == w.epoch && SamePadded(v.release, w.release) && v.stage < w.stage)
  {
    TrimmedSame(v.release, w.release);
    OrderIsPadded(v.release, w.release);
  }

  // ----- Statuses and operators

  /** A bug counts as open unless its status is one of three, in any case of letters. */
  lemma OpenExactly(f: Fields)
    ensures StatusOpen(f) <==>
              Lower(f.status) != "closed" && Lower(f.status) != "resolved" && Lower(f.status) != "testing"
  {
    assert CLOSED[0] in CLOSED && CLOSED[1] in CLOSED && CLOSED[2] in CLOSED;
  }

  predicate NamesOperator(name: string) {
    "rhods" <= name || "opendatahub" <= name
  }

  /** The operator's version is that of the first service version named after it. */
  lemma {:induction false} OperatorExactly(csvs: seq<Csv>, k: nat)
    requires k <= |csvs| && forall j | 0 <= j < k :: !NamesOperator(csvs[j].name)
    ensures k == |csvs| ==> OperatorVersion(csvs) == NoVersion
    ensures k < |csvs| && NamesOperator(csvs[k].name) ==> OperatorVersion(csvs) == csvs[k].version
  {
    if k > 0 {
      OperatorExactly(csvs[1..], k - 1);
    }
  }

  predicate NamesRelease(f: Fields, k: nat)
    requires k < |f.fixVersions|
  {
    FixVersion(f.fixVersions[k]).Some?
  }

  /** What the answer for a closed status is, or which error: no release named, no operator, an operator version that
      cannot be read; otherwise open exactly when every release named comes after the operator's. */
  lemma AnswerExactly(f: Fields, csvs: seq<Csv>)
    ensures var named := exists k | 0 <= k < |f.fixVersions| :: NamesRelease(f, k);
            var operator := OperatorVersion(csvs);
            && (Verdict(f, csvs) == Err(NoFixVersions) <==> !named)
            && (Verdict(f, csvs) == Err(OperatorNotFound) <==> named && operator == NoVersion)
            && (Verdict(f, csvs) == Err(InvalidVersion) <==> named && operator == Unparsable)
            && (Verdict(f, csvs) == Ok(true) <==>
                  && named && operator.Parsed?
                  && forall k | 0 <= k < |f.fixVersions| && NamesRelease(f, k) ::
                       Less(operator.version, FixVersion(f.fixVersions[k]).value))
  {
    var fixes := FixVersions(f.fixVersions);
    if k :| 0 <= k < |f.fixVersions| && NamesRelease(f, k) {
      assert FixVersion(f.fixVersions[k]).value in fixes;
    }
    if fixes != [] {
      assert fixes[0] in fixes;
      var k :| 0 <= k < |f.fixVersions| && FixVersion(f.fixVersions[k]) == Some(fixes[0]);
      assert NamesRelease(f, k);
    }
    if OperatorVersion(csvs).Parsed? {
      FixedInList(f, OperatorVersion(csvs).version);
      ClosedExactly(f, csvs);
    }
  }
}
