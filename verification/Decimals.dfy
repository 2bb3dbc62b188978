/** Decimal texts of numbers, and the numbers they denote. */
module Decimals {
  import opened Arithmetic

  function Pow10(n: nat): (p: nat)
    ensures p > 0
  {
    if n == 0 then 1 else 10 * Pow10(n - 1)
  }

  /** x without its last n digits. */
  function High(x: nat, n: nat): nat
  {
    QuotientIsNat(x, Pow10(n));
    x / Pow10(n)
  }

  /** The number the last n digits of x form. */
  function Low(x: nat, n: nat): nat
  {
    x % Pow10(n)
  }

  /** Whether 10 to the power n divides x. */
  predicate EndsInZeros(x: nat, n: nat)
  {
    Low(x, n) == 0
  }

  lemma HighLow(x: nat, n: nat)
    ensures x == High(x, n) * Pow10(n) + Low(x, n) && Low(x, n) < Pow10(n)
  {
  }

  lemma HighLowUnique(x: nat, n: nat, q: nat, r: nat)
    requires x == q * Pow10(n) + r && r < Pow10(n)
    ensures High(x, n) == q && Low(x, n) == r
  {
    hide Pow10;
    ModUnique(x, Pow10(n), q, r);
  }

  function Digit(d: nat): (c: char)
    requires d < 10
    ensures c == "0123456789"[d]
  {
    ('0' as int + d) as char
  }

  function DigitValue(c: char): nat
  {
    if '0' <= c <= '9' then c as int - '0' as int else 0
  }

  /** A whole number, without leading zeros. */
  function Digits(x: nat): (s: string)
    ensures s != "" && '.' !in s
  {
    if x < 10 then [Digit(x)] else Digits(x / 10) + [Digit(x % 10)]
  }

  /** The last n digits, with zeros in front where there are none. */
  function LastDigits(x: nat, n: nat): (s: string)
    ensures |s| == n && '.' !in s
  {
    if n == 0 then "" else LastDigits(x / 10, n - 1) + [Digit(x % 10)]
  }

  function Value(s: string): nat
  {
    if s == "" then 0 else Value(s[..|s| - 1]) * 10 + DigitValue(s[|s| - 1])
  }

  /** A fraction without the zeros at its end. */
  function Strip(s: string): (t: string)
    ensures t <= s
  {
    if s != "" && s[|s| - 1] == '0' then Strip(s[..|s| - 1]) else s
  }

  lemma ValueOfLast(s: string, d: nat)
    requires d < 10
    ensures Value(s + [Digit(d)]) == Value(s) * 10 + d
  {
  }

  lemma {:induction false} DigitsValue(x: nat)
    ensures Value(Digits(x)) == x
  {
    if x < 10 {
      ValueOfLast("", x);
      assert "" + [Digit(x)] == Digits(x);
    } else {
      hide Value;
      DigitsValue(x / 10);
      ValueOfLast(Digits(x / 10), x % 10);
    }
  }

  /** The last digits of x are those of x / 10 and the last one. */
  lemma LowStep(x: nat, n: nat)
    requires n > 0
    ensures Low(x, n) == 10 * Low(x / 10, n - 1) + x % 10
  {
    hide High, Low;
    var y, r, d := x / 10, x % 10, Pow10(n - 1);
    HighLow(y, n - 1);
    var q, s := High(y, n - 1), Low(y, n - 1);
    TimesTen(x, y, r, q, s, d);
    HighLowUnique(x, n, q, 10 * s + r);
  }

  lemma TimesTen(x: nat, y: nat, r: nat, q: nat, s: nat, d: nat)
    requires x == 10 * y + r && y == q * d + s
    ensures x == q * (10 * d) + (10 * s + r)
  {
  }

  lemma {:induction false} LowNothing(x: nat)
    ensures Low(x, 0) == 0 && High(x, 0) == x && Pow10(0) == 1
  {
  }

  lemma {:induction false} LastDigitsValue(x: nat, n: nat)
    ensures Value(LastDigits(x, n)) == Low(x, n)
  {
    hide Low, Pow10;
    if n == 0 {
      LowNothing(x);
    } else {
      LastDigitsValue(x / 10, n - 1);
      ValueOfLast(LastDigits(x / 10, n - 1), x % 10);
      LowStep(x, n);
    }
  }

  lemma EndsInZerosStep(x: nat, n: nat)
    requires n > 0
    ensures EndsInZeros(x, n) <==> x % 10 == 0 && EndsInZeros(x / 10, n - 1)
  {
    hide Low;
    LowStep(x, n);
  }

  /** How many of the n last digits are kept when the zeros at the end are stripped. */
  function Kept(x: nat, n: nat): (p: nat)
    ensures p <= n
  {
    |Strip(LastDigits(x, n))|
  }

  lemma KeptStep(x: nat, n: nat)
    requires n > 0
    ensures Kept(x, n) == if x % 10 == 0 then Kept(x / 10, n - 1) else n
  {
  }

  /** Digits are kept exactly as far as they are needed: what is cut off is a row of zeros. */
  lemma {:induction false} KeptIsLeast(x: nat, n: nat, p: nat)
    requires p <= n
    ensures EndsInZeros(x, n - p) <==> Kept(x, n) <= p
  {
    hide Low, Kept;
    if p == n {
      LowNothing(x);
    } else {
      KeptStep(x, n);
      EndsInZerosStep(x, n - p);
      KeptIsLeast(x / 10, n - 1, p);
    }
  }

  lemma {:induction false} PowProduct(m: nat, n: nat)
    ensures Pow10(m) * Pow10(n) == Pow10(m + n)
  {
    if m > 0 {
      PowProduct(m - 1, n);
      assert 10 * Pow10(m - 1) * Pow10(n) == 10 * (Pow10(m - 1) * Pow10(n));
    }
  }

  /** A multiple of a number that ends in zeros ends in as many. */
  lemma MultipleEndsInZeros(m: nat, x: nat, n: nat)
    requires EndsInZeros(x, n)
    ensures EndsInZeros(m * x, n)
  {
    hide High, Low, Pow10;
    HighLow(x, n);
    Regroup(m, High(x, n), Pow10(n));
    HighLowUnique(m * x, n, m * High(x, n), 0);
  }

  lemma Regroup(m: nat, q: nat, d: nat)
    ensures m * (q * d) == (m * q) * d
  {
  }

  predicate AllDigits(s: string)
  {
    forall i :: 0 <= i < |s| ==> '0' <= s[i] <= '9'
  }

  lemma {:induction false} DigitsAreDigits(x: nat)
    ensures AllDigits(Digits(x))
    ensures Digits(x)[0] == '0' ==> x == 0 && |Digits(x)| == 1
  {
    if x >= 10 {
      DigitsAreDigits(x / 10);
    }
  }

  lemma {:induction false} LastDigitsAreDigits(x: nat, n: nat)
    ensures AllDigits(LastDigits(x, n))
  {
    if n > 0 {
      LastDigitsAreDigits(x / 10, n - 1);
    }
  }

  lemma ValueOfZero(s: string)
    requires s != "" && s[|s| - 1] == '0'
    ensures Value(s) == 10 * Value(s[..|s| - 1])
  {
  }

  lemma PowNext(n: nat)
    ensures Pow10(n + 1) == 10 * Pow10(n) && Pow10(0) == 1
  {
  }

  lemma TenTimes(v: nat, p: nat)
    ensures v * (10 * p) == 10 * (v * p)
  {
  }

  /** Stripping zeros divides a value by a power of ten. */
  lemma {:induction false} StripValue(s: string)
    ensures Value(s) == Value(Strip(s)) * Pow10(|s| - |Strip(s)|)
  {
    hide Value, Pow10;
    PowNext(|s| - |Strip(s)|);
    if s != "" && s[|s| - 1] == '0' {
      var t := s[..|s| - 1];
      StripValue(t);
      ValueOfZero(s);
      PowNext(|t| - |Strip(t)|);
      TenTimes(Value(Strip(t)), Pow10(|t| - |Strip(t)|));
    }
  }
}
