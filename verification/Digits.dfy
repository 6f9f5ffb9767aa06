/** Decimal digit strings: `String(n)`, `padStart` and reading them back. */
module Digits {

  predicate IsDigit(c: char) { '0' <= c <= '9' }

  ghost predicate AllDigits(s: string) { forall i :: 0 <= i < |s| ==> IsDigit(s[i]) }

  predicate OnlyDigits(s: string)
    ensures OnlyDigits(s) <==> AllDigits(s)
  {
    s == "" || (IsDigit(s[0]) && OnlyDigits(s[1..]))
  }

  function DigitValue(c: char): int { c as int - '0' as int }

  function DigitChar(n: int): (c: char)
    requires 0 <= n < 10
    ensures IsDigit(c) && DigitValue(c) == n
  {
    (n + '0' as int) as char
  }

  /** `String(n)` of a non-negative integer. */
  function Decimal(n: nat): (s: string)
    ensures s != "" && AllDigits(s)
  {
    if n < 10 then [DigitChar(n)] else Decimal(n / 10) + [DigitChar(n % 10)]
  }

  /** `Number(s)` of a digit string; the empty string reads as 0. */
  function Value(s: string): int {
    if s == "" then 0 else 10 * Value(s[..|s| - 1]) + DigitValue(s[|s| - 1])
  }

  /** `String(n).padStart(2, '0')` */
  function Pad2(n: nat): (s: string)
    ensures AllDigits(s)
  {
    if n < 10 then "0" + Decimal(n) else Decimal(n)
  }

  function Pow10(k: nat): int { if k == 0 then 1 else 10 * Pow10(k - 1) }

  lemma {:induction false} DecimalReadsBack(n: nat)
    ensures Value(Decimal(n)) == n
  {
    if n >= 10 {
      DecimalReadsBack(n / 10);
      assert Decimal(n)[..|Decimal(n)| - 1] == Decimal(n / 10);
    }
  }

  lemma {:induction false} Pow10AtLeastTen(k: nat)
    requires k >= 1
    ensures Pow10(k) >= 10
  {
    if k > 1 { Pow10AtLeastTen(k - 1); }
  }

  lemma {:induction false} DecimalLength(n: nat, k: nat)
    requires k >= 1
    ensures |Decimal(n)| <= k <==> n < Pow10(k)
  {
    if k == 1 {
      assert Pow10(1) == 10;
    } else if n >= 10 {
      DecimalLength(n / 10, k - 1);
    } else {
      Pow10AtLeastTen(k);
    }
  }

  lemma Pad2Digits(n: nat)
    requires n < 100
    ensures Pad2(n) == [DigitChar(n / 10), DigitChar(n % 10)]
  {
    assert Decimal(n / 10) == [DigitChar(n / 10)];
    assert DigitChar(0) == '0';
  }

  lemma ValueOfTwo(a: char, b: char)
    ensures Value([a, b]) == 10 * DigitValue(a) + DigitValue(b)
    ensures Value([a]) == DigitValue(a)
  {
    assert [a, b][..1] == [a];
    assert [a][..0] == "";
    assert Value("") == 0;
    assert Value([a]) == DigitValue(a);
  }

  lemma Pad2ReadsBack(n: nat)
    requires n < 100
    ensures |Pad2(n)| == 2 && Value(Pad2(n)) == n
  {
    Pad2Digits(n);
    ValueOfTwo(DigitChar(n / 10), DigitChar(n % 10));
  }

  /** Digit strings are read from the left in tens, '0' being worth 0 and '9' worth 9. */
  lemma ReadInTens(s: string, c: char)
    ensures Value("") == 0 && Value(s + [c]) == 10 * Value(s) + (c as int - 48)
  {
    assert (s + [c])[..|s|] == s;
  }

  /** Numbers are printed without a leading zero. */
  lemma {:induction false} NoLeadingZero(n: nat)
    ensures n > 0 ==> Decimal(n)[0] != '0'
    ensures Decimal(0) == "0"
  {
    if n < 10 {
    } else {
      NoLeadingZero(n / 10);
    }
  }
}
