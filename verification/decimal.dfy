/** Decimal text and integers: Python's `int()` on the digit runs the pattern
    captures, pandas' `astype(int)` (a 64-bit column), and `str()` on an int. */
module Decimal {
  import opened Wrappers
  import opened Chars

  /** The largest value of the int64 column `astype(int)` produces. */
  const Int64Max: int := 0x7FFF_FFFF_FFFF_FFFF

  function DigitValue(c: char): (d: nat)
    requires IsDigit(c)
    ensures d <= 9
  {
    (c - '0') as nat
  }

  function DigitChar(d: nat): (c: char)
    requires d <= 9
    ensures IsDigit(c) && DigitValue(c) == d
  {
    ('0' as int + d) as char
  }

  /** A non-empty string of ASCII digits. */
  predicate IsDigits(s: string) {
    |s| > 0 && forall i :: 0 <= i < |s| ==> IsDigit(s[i])
  }

  /** The value of a string of digits, most significant first. */
  function DecimalValue(s: string): (v: nat)
    requires forall i :: 0 <= i < |s| ==> IsDigit(s[i])
    ensures v == 0 <==> forall i :: 0 <= i < |s| ==> s[i] == '0'
  {
    if s == [] then 0 else 10 * DecimalValue(s[..|s| - 1]) + DigitValue(s[|s| - 1])
  }

  /** `str(n)` for a non-negative int. */
  function NatText(n: nat): (t: string)
    ensures IsDigits(t)
  {
    if n < 10 then [DigitChar(n)] else NatText(n / 10) + [DigitChar(n % 10)]
  }

  /** `str(n)`: a minus sign before the digits of a negative int. */
  function DecimalText(n: int): (t: string)
    ensures |t| > 0 && (t[0] == '-' <==> n < 0)
    ensures n >= 0 ==> IsDigits(t)
  {
    if n < 0 then "-" + NatText(-n) else NatText(n)
  }

  /** Digits in the form `str()` writes them: no leading zero except in "0". */
  predicate IsCanonical(s: string) {
    IsDigits(s) && (s[0] == '0' ==> |s| == 1)
  }

  /** One cell of `df[col].astype(int)`: the digits' value, or a failure
      (OverflowError) when it does not fit the int64 column. Strings other than
      digit runs never reach it, and are refused. */
  function ToInt(s: string): (r: Option<int>)
    ensures r.Some? <==> IsDigits(s) && DecimalValue(s) <= Int64Max
    ensures r.Some? ==> 0 <= r.value <= Int64Max && r.value == DecimalValue(s)
  {
    if IsDigits(s) && DecimalValue(s) <= Int64Max then Some(DecimalValue(s)) else None
  }

  /** The first decimal digit of `n`. */
  function LeadingDigit(n: nat): (d: nat)
    ensures d <= 9
  {
    if n < 10 then n else LeadingDigit(n / 10)
  }

  // ---------------------------------------------------------------------------

  /** The value of a one-digit field. */
  lemma ValueOfOneDigit(s: string)
    requires |s| == 1 && IsDigit(s[0])
    ensures DecimalValue(s) == DigitValue(s[0])
  {
    assert s[..0] == [];
  }

  /** The value of a two-digit field. */
  lemma ValueOfTwoDigits(s: string)
    requires |s| == 2 && IsDigit(s[0]) && IsDigit(s[1])
    ensures DecimalValue(s) == 10 * DigitValue(s[0]) + DigitValue(s[1])
  {
    ValueOfOneDigit(s[..1]);
  }

  /** The value of a four-digit field, two digits at a time. */
  lemma ValueOfFourDigits(s: string)
    requires |s| == 4 && IsDigits(s)
    ensures DecimalValue(s) == 100 * (10 * DigitValue(s[0]) + DigitValue(s[1])) + (10 * DigitValue(s[2]) + DigitValue(s[3]))
  {
    assert s[..3][..2] == s[..2];
    ValueOfTwoDigits(s[..2]);
  }

  lemma {:induction false} NatTextCanonical(n: nat)
    ensures IsCanonical(NatText(n))
    ensures NatText(n)[0] == DigitChar(LeadingDigit(n))
    ensures |NatText(n)| == 1 <==> n < 10
  {
    if n >= 10 {
      NatTextCanonical(n / 10);
    }
  }

  /** `int(str(n)) == n`. */
  lemma {:induction false} ValueOfText(n: nat)
    ensures DecimalValue(NatText(n)) == n
  {
    if n >= 10 {
      var t := NatText(n);
      assert t[..|t| - 1] == NatText(n / 10);
      ValueOfText(n / 10);
    }
  }

  /** Every value of the int64 column is the conversion of its own decimal text. */
  lemma ToIntOfText(n: nat)
    requires n <= Int64Max
    ensures ToInt(NatText(n)) == Some(n)
  {
    ValueOfText(n);
  }

  lemma {:induction false} PrefixOfCanonical(s: string)
    requires IsCanonical(s) && |s| > 1
    ensures IsCanonical(s[..|s| - 1])
    ensures DecimalValue(s[..|s| - 1]) >= 1
  {
    var p := s[..|s| - 1];
    if |p| == 1 {
      assert p[0] == s[0];
    } else {
      assert p[..|p| - 1] == s[..|s| - 2];
      assert s[..|s| - 1][..|s| - 2] == s[..|s| - 2];
      PrefixOfCanonical(p);
    }
  }

  /** `str(int(s)) == s` when `s` has no leading zero. */
  lemma {:induction false} TextOfValue(s: string)
    requires IsCanonical(s)
    ensures NatText(DecimalValue(s)) == s
  {
    if |s| == 1 {
    } else {
      var p := s[..|s| - 1];
      PrefixOfCanonical(s);
      TextOfValue(p);
      var n := DecimalValue(s);
      assert n / 10 == DecimalValue(p);
      assert n % 10 == DigitValue(s[|s| - 1]);
      assert s == p + [s[|s| - 1]];
    }
  }

  /** Leading zeros are lost: "0532" converts to 532, which `str()` writes as "532". */
  lemma LeadingZerosAreLost()
    ensures ToInt("0532") == Some(532)
    ensures DecimalText(532) == "532"
  {
    assert "0532"[..3] == "053";
    assert "053"[..2] == "05";
    assert "05"[..1] == "0";
    assert DecimalValue("0") == 0;
    assert DecimalValue("05") == 5;
    assert DecimalValue("053") == 53;
    assert DecimalValue("0532") == 532;
    assert NatText(53) == NatText(5) + ['3'];
    assert NatText(532) == NatText(53) + ['2'];
  }

  /** For a three-digit code the leading digit is the hundreds digit. */
  lemma {:induction false} LeadingDigitOfThreeDigits(n: nat)
    requires 100 <= n <= 999
    ensures LeadingDigit(n) == n / 100
  {
    assert LeadingDigit(n) == LeadingDigit(n / 10);
    assert LeadingDigit(n / 10) == LeadingDigit(n / 10 / 10);
    assert n / 10 / 10 == n / 100;
  }
}
