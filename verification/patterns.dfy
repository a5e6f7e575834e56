/** The two regular expressions the schema and the form check use, written as
    predicates over strings: the e-mail shape `^\S+@\S+\.\S+$` and the phone
    shape `^\d{10}$`. */
module Patterns {
  import opened Text

  /** `^\S+@\S+\.\S+$`: no whitespace anywhere, an `@` after at least one
      character, and a `.` at least two positions after that `@` and before
      the last character. */
  predicate EmailShape(s: string) {
    && NoSpace(s)
    && exists i, j | 0 < i < j < |s| - 1 && i + 1 < j :: s[i] == '@' && s[j] == '.'
  }

  /** `^\d{10}$`: exactly ten ASCII decimal digits. */
  predicate PhoneShape(s: string) {
    |s| == 10 && forall i | 0 <= i < |s| :: IsDigit(s[i])
  }

  /** Any three non-empty whitespace-free pieces joined as `a@b.c` match the
      e-mail pattern (each `\S+` matches one piece). */
  lemma EmailFromParts(a: string, b: string, c: string)
    requires |a| > 0 && |b| > 0 && |c| > 0
    requires NoSpace(a) && NoSpace(b) && NoSpace(c)
    ensures EmailShape(a + "@" + b + "." + c)
  {
    var s := a + "@" + b + "." + c;
    var i, j := |a|, |a| + 1 + |b|;
    assert s[i] == '@' && s[j] == '.';
    forall k | 0 <= k < |s|
      ensures !IsSpace(s[k])
    {
      if k < i {
        assert s[k] == a[k];
      } else if i < k < j {
        assert s[k] == b[k - i - 1];
      } else if j < k {
        assert s[k] == c[k - j - 1];
      }
    }
  }

  /** Conversely, every match splits into three non-empty whitespace-free
      pieces around an `@` and a `.`. */
  lemma EmailToParts(s: string) returns (a: string, b: string, c: string)
    requires EmailShape(s)
    ensures |a| > 0 && |b| > 0 && |c| > 0
    ensures NoSpace(a) && NoSpace(b) && NoSpace(c)
    ensures s == a + "@" + b + "." + c
  {
    var i, j :| 0 < i < j < |s| - 1 && i + 1 < j && s[i] == '@' && s[j] == '.';
    a, b, c := s[..i], s[i + 1..j], s[j + 1..];
    assert s == s[..i] + [s[i]] + s[i + 1..j] + [s[j]] + s[j + 1..];
  }

  /** A single left-to-right pass deciding the e-mail pattern: remember the
      first `@` past index 0 and look for a `.` two or more places after it. */
  method MatchEmail(s: string) returns (ok: bool)
    ensures ok <==> EmailShape(s)
  {
    var at := -1;
    var dot := false;
    var k := 0;
    while k < |s|
      invariant 0 <= k <= |s|
      invariant forall m | 0 <= m < k :: !IsSpace(s[m])
      invariant at == -1 ==> forall m | 0 < m < k :: s[m] != '@'
      invariant at != -1 ==> 0 < at < k && s[at] == '@'
      invariant at != -1 ==> forall m | 0 < m < at :: s[m] != '@'
      invariant dot <==> at != -1 && exists j | at + 1 < j < k && j < |s| - 1 :: s[j] == '.'
    {
      if IsSpace(s[k]) {
        return false;
      }
      if at == -1 && 0 < k && s[k] == '@' {
        at := k;
      } else if at != -1 && at + 1 < k < |s| - 1 && s[k] == '.' {
        dot := true;
      }
      k := k + 1;
    }
    ok := dot;
    if EmailShape(s) {
      var i, j :| 0 < i < j < |s| - 1 && i + 1 < j && s[i] == '@' && s[j] == '.';
      assert at != -1 && at <= i;
      assert at + 1 < j;
    }
  }

  /** Lower-casing neither creates nor destroys a match. */
  lemma EmailShapeLower(s: string)
    ensures EmailShape(Lower(s)) <==> EmailShape(s)
  {
    var l := Lower(s);
    forall k | 0 <= k < |s|
      ensures l[k] == '@' <==> s[k] == '@'
      ensures l[k] == '.' <==> s[k] == '.'
      ensures IsSpace(l[k]) <==> IsSpace(s[k])
    {
      assert l[k] == LowerChar(s[k]);
    }
    if EmailShape(s) {
      var i, j :| 0 < i < j < |s| - 1 && i + 1 < j && s[i] == '@' && s[j] == '.';
      assert l[i] == '@' && l[j] == '.';
    }
    if EmailShape(l) {
      var i, j :| 0 < i < j < |l| - 1 && i + 1 < j && l[i] == '@' && l[j] == '.';
      assert s[i] == '@' && s[j] == '.';
    }
  }

  /** A digit string has no whitespace, so `trim` leaves it alone. */
  lemma PhoneShapeTrimmed(s: string)
    requires PhoneShape(s)
    ensures NoSpace(s) && Trimmed(s)
  {
    forall k | 0 <= k < |s|
      ensures !IsSpace(s[k])
    {
      assert IsDigit(s[k]);
    }
    NoSpaceTrimmed(s);
  }

  function DigitValue(c: char): (d: nat)
    requires IsDigit(c)
    ensures d < 10
  {
    c as int - '0' as int
  }

  /** The number a string of decimal digits spells, most significant first. */
  function ValueOf(s: string): nat
    requires forall i | 0 <= i < |s| :: IsDigit(s[i])
  {
    if s == [] then 0 else 10 * ValueOf(s[..|s| - 1]) + DigitValue(s[|s| - 1])
  }

  function Pow10(k: nat): (p: nat)
    ensures p > 0
  {
    if k == 0 then 1 else 10 * Pow10(k - 1)
  }

  /** `n` written with exactly `width` decimal digits, zero-padded. */
  function Numeral(n: nat, width: nat): (s: string)
    ensures |s| == width
    ensures forall i | 0 <= i < |s| :: IsDigit(s[i])
  {
    if width == 0 then [] else Numeral(n / 10, width - 1) + [('0' as int + n % 10) as char]
  }

  lemma {:induction false} NumeralOfValue(s: string)
    requires forall i | 0 <= i < |s| :: IsDigit(s[i])
    ensures ValueOf(s) < Pow10(|s|)
    ensures Numeral(ValueOf(s), |s|) == s
    decreases |s|
  {
    if s != [] {
      var p := s[..|s| - 1];
      var d := DigitValue(s[|s| - 1]);
      NumeralOfValue(p);
      var v := ValueOf(s);
      assert v == 10 * ValueOf(p) + d;
      assert v / 10 == ValueOf(p) && v % 10 == d;
      assert s == p + [s[|s| - 1]];
    }
  }

  lemma {:induction false} ValueOfNumeral(n: nat, width: nat)
    requires n < Pow10(width)
    ensures ValueOf(Numeral(n, width)) == n
    decreases width
  {
    if width > 0 {
      var s := Numeral(n, width);
      assert n / 10 < Pow10(width - 1);
      ValueOfNumeral(n / 10, width - 1);
      assert s[..width - 1] == Numeral(n / 10, width - 1);
      assert n == 10 * (n / 10) + n % 10;
    }
  }

  /** The phone pattern matches exactly the ten-digit numerals of the numbers
      below 10^10: a match spells such a number and is that number written
      back, and each such number written with ten digits matches and spells
      itself. */
  lemma PhoneShapeNumerals(s: string, n: nat)
    ensures PhoneShape(s) ==> ValueOf(s) < Pow10(10) && Numeral(ValueOf(s), 10) == s
    ensures n < Pow10(10) ==> PhoneShape(Numeral(n, 10)) && ValueOf(Numeral(n, 10)) == n
  {
    if PhoneShape(s) {
      NumeralOfValue(s);
    }
    if n < Pow10(10) {
      ValueOfNumeral(n, 10);
    }
  }
}
