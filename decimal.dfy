/** The decimal rendering of an integer, as JavaScript's `Number.prototype.toString`
    produces it for the integral assignment numbers of the question bank: an optional
    minus sign followed by the digits, most significant first, with no leading zeros. */
module Decimal {

  predicate IsDigit(c: char)
  {
    '0' <= c <= '9'
  }

  /** The character for the digit d. */
  function Digit(d: nat): (c: char)
    requires d < 10
    ensures IsDigit(c)
    ensures c as int - '0' as int == d
  {
    (d + '0' as int) as char
  }

  /** The digits of n, most significant first. */
  function Digits(n: nat): (s: string)
    ensures 0 < |s|
    ensures |s| == 1 <==> n < 10
    ensures s[0] == '0' <==> n == 0
    ensures forall k :: 0 <= k < |s| ==> IsDigit(s[k])
    decreases n
  {
    if n < 10 then [Digit(n)] else Digits(n / 10) + [Digit(n % 10)]
  }

  /** `n.toString()` for an integral number n. */
  function IntToString(n: int): (s: string)
    ensures 0 < |s|
    ensures s[0] == '-' <==> n < 0
    ensures forall k :: (if n < 0 then 1 else 0) <= k < |s| ==> IsDigit(s[k])
  {
    if n < 0 then "-" + Digits(-n) else Digits(n)
  }

  /** The number a string of digits stands for, most significant digit first. */
  function Value(s: string): (v: nat)
    requires forall k :: 0 <= k < |s| ==> IsDigit(s[k])
  {
    if s == [] then 0
    else assert IsDigit(s[|s| - 1]); Value(s[..|s| - 1]) * 10 + (s[|s| - 1] as int - '0' as int)
  }

  /** The digits of n stand for n. */
  lemma {:induction false} DigitsValue(n: nat)
    ensures Value(Digits(n)) == n
  {
    var s := Digits(n);
    if n < 10 {
      assert s[..0] == [];
    } else {
      assert s[..|s| - 1] == Digits(n / 10);
      DigitsValue(n / 10);
    }
  }

  /** The rendering of a non-negative number reads back as that number. */
  lemma IntToStringValue(n: int)
    ensures n >= 0 ==> Value(IntToString(n)) == n
  {
    if n >= 0 {
      DigitsValue(n);
    }
  }

  /** Different natural numbers have different digit strings. */
  lemma {:induction false} DigitsInjective(a: nat, b: nat)
    requires Digits(a) == Digits(b)
    ensures a == b
  {
    if a >= 10 && b >= 10 {
      var s := Digits(a);
      assert s == Digits(a / 10) + [Digit(a % 10)];
      assert Digits(b) == Digits(b / 10) + [Digit(b % 10)];
      assert Digits(a / 10) == s[..|s| - 1] == Digits(b / 10);
      assert Digit(a % 10) == s[|s| - 1] == Digit(b % 10);
      DigitsInjective(a / 10, b / 10);
    }
  }

  /** Different integers have different decimal renderings, so comparing
      renderings is the same as comparing numbers. */
  lemma IntToStringInjective(a: int, b: int)
    requires IntToString(a) == IntToString(b)
    ensures a == b
  {
    if a < 0 {
      assert IntToString(a)[1..] == Digits(-a);
      assert IntToString(b)[1..] == Digits(-b);
      DigitsInjective(-a, -b);
    } else {
      DigitsInjective(a, b);
    }
  }

  /** A string of two or more characters that starts with a zero, such as "01",
      is never the rendering of a number. */
  lemma LeadingZeroIsNotANumber(n: int, s: string)
    requires 1 < |s| && s[0] == '0'
    ensures IntToString(n) != s
  {
  }

  /** The default selection "1" is the rendering of the number 1. */
  lemma OneRendersAsOne()
    ensures IntToString(1) == "1"
  {
  }

  /** The word "all" is never the rendering of a number. */
  lemma AllIsNotANumber(n: int)
    ensures IntToString(n) != "all"
  {
    assert IntToString(n)[0] != "all"[0];
  }
}
