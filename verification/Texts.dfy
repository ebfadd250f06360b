/** Text operations several sources use: `str.lower`, the substring test, and decimal digits. */
module Texts {

  /** Lower case of the ASCII letters; no other character matters to the texts it is compared with. */
  function Lower(s: string): (r: string)
    ensures |r| == |s|
  {
    seq(|s|, i requires 0 <= i < |s| => if 'A' <= s[i] <= 'Z' then (s[i] as int + 32) as char else s[i])
  }

  lemma LowerJoined(a: string, b: string)
    ensures Lower(a + b) == Lower(a) + Lower(b)
  {
  }

  predicate Contains(s: string, part: string) {
    |s| >= |part| && (s[..|part|] == part || (s != "" && Contains(s[1..], part)))
  }

  lemma {:induction false} ContainsLater(s: string, part: string, n: nat)
    requires n <= |s| && Contains(s[n..], part)
    ensures Contains(s, part)
  {
    if n > 0 {
      assert s[1..][n - 1..] == s[n..];
      ContainsLater(s[1..], part, n - 1);
    } else {
      assert s[0..] == s;
    }
  }

  /** The test holds exactly when the part stands at some position. */
  lemma {:induction false} ContainsExactly(s: string, part: string)
    ensures Contains(s, part) <==> exists i | 0 <= i <= |s| - |part| :: s[i..][..|part|] == part
  {
    if |s| >= |part| {
      assert s[0..] == s;
      if s != "" {
        var rest := s[1..];
        ContainsExactly(rest, part);
        assert forall i | 0 <= i <= |rest| :: rest[i..] == s[i + 1..];
        if exists i | 0 <= i <= |s| - |part| :: s[i..][..|part|] == part {
          var i :| 0 <= i <= |s| - |part| && s[i..][..|part|] == part;
          if i > 0 {
            assert rest[i - 1..] == s[i..];
          }
        }
        if Contains(rest, part) {
          var i :| 0 <= i <= |rest| - |part| && rest[i..][..|part|] == part;
          assert s[i + 1..] == rest[i..];
        }
      }
    }
  }

  predicate IsDigit(c: char) {
    '0' <= c <= '9'
  }

  /** The number a text of digits stands for. */
  function ValueOf(s: string): (n: int)
    ensures (forall k | 0 <= k < |s| :: IsDigit(s[k])) ==> n >= 0
  {
    if s == [] then 0 else 10 * ValueOf(s[..|s| - 1]) + (s[|s| - 1] as int - '0' as int)
  }

  function DigitOf(d: nat): char
    requires d < 10
  {
    "0123456789"[d]
  }

  function Decimal(n: nat): (s: string)
    ensures s != [] && forall k | 0 <= k < |s| :: IsDigit(s[k])
  {
    if n < 10 then [DigitOf(n)] else Decimal(n / 10) + [DigitOf(n % 10)]
  }

  /** The digits of a number determine it. */
  lemma {:induction false} DecimalRoundTrip(n: nat)
    ensures ValueOf(Decimal(n)) == n
  {
    var s := Decimal(n);
    if n < 10 {
      assert s[..|s| - 1] == [];
    } else {
      assert s[..|s| - 1] == Decimal(n / 10);
      DecimalRoundTrip(n / 10);
    }
  }
}
