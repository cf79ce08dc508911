/**
 * The parts of Java's own semantics that the modelled code relies on:
 * 32-bit `int` wrap-around, `/` and `%` truncating toward zero, decimal
 * printing of `int`, `String.format("%0Nd", ...)`, `Integer.parseInt`
 * and `String.hashCode`.
 */
module JavaLang {
  import opened Wrappers

  /**
   * The argument of a Java `equals(Object)`: an instance of the class in
   * question, or anything else (another class or `null`).
   */
  datatype JavaObject<T> = Instance(value: T) | NotAnInstance

  const INT_MIN: int := -0x8000_0000
  const INT_MAX: int := 0x7fff_ffff

  predicate IsInt32(n: int) {
    INT_MIN <= n <= INT_MAX
  }

  /** The value a Java `int` holds after an operation whose exact result is `n`. */
  function Wrap32(n: int): (r: int)
    ensures IsInt32(r)
    ensures (r - n) % 0x1_0000_0000 == 0
    ensures IsInt32(n) ==> r == n
  {
    (n - INT_MIN) % 0x1_0000_0000 + INT_MIN
  }

  /** Java's `a / b`: the quotient truncated toward zero. */
  function JavaDiv(a: int, b: int): (q: int)
    requires b != 0
    ensures a >= 0 && b > 0 ==> q == a / b
  {
    if (a >= 0) == (b > 0) then
      (if a >= 0 then a else -a) / (if b > 0 then b else -b)
    else
      -((if a >= 0 then a else -a) / (if b > 0 then b else -b))
  }

  /** Java's `a % b`: the remainder takes the sign of `a`. */
  function JavaRem(a: int, b: int): (r: int)
    requires b != 0
    ensures a == b * JavaDiv(a, b) + r
    ensures a >= 0 ==> 0 <= r < (if b > 0 then b else -b)
    ensures a < 0 ==> -(if b > 0 then b else -b) < r <= 0
  {
    a - b * JavaDiv(a, b)
  }

  /** For a non-negative dividend and a positive divisor Java's `/` and `%` agree with Dafny's. */
  lemma NonNegativeDivRem(a: int, b: int)
    requires a >= 0 && b > 0
    ensures JavaDiv(a, b) == a / b && JavaRem(a, b) == a % b
    ensures b * (a / b) + a % b == a
  {
  }

  function DigitChar(d: nat): (c: char)
    requires d < 10
    ensures '0' <= c <= '9'
  {
    ['0', '1', '2', '3', '4', '5', '6', '7', '8', '9'][d]
  }

  /** Decimal digits of `n`, most significant first, no leading zeros. */
  function NatToString(n: nat): (s: string)
    ensures |s| >= 1
    ensures forall i :: 0 <= i < |s| ==> '0' <= s[i] <= '9'
    ensures n >= 10 ==> s[0] != '0'
  {
    if n < 10 then [DigitChar(n)] else NatToString(n / 10) + [DigitChar(n % 10)]
  }

  /** `String.valueOf(int)` / string concatenation of an `int`. */
  function IntToString(n: int): (s: string)
    ensures |s| >= 1
    ensures (n < 0) == (s[0] == '-')
    ensures forall i :: 0 <= i < |s| ==> s[i] == '-' || '0' <= s[i] <= '9'
  {
    if n < 0 then "-" + NatToString(-n) else NatToString(n)
  }

  function Repeat(c: char, n: nat): (s: string)
    ensures |s| == n
    ensures forall i :: 0 <= i < n ==> s[i] == c
  {
    if n == 0 then [] else [c] + Repeat(c, n - 1)
  }

  /** `String.format("%0" + width + "d", n)`: zero padding after the sign, the sign counted in the width. */
  function FormatZeroPadded(n: int, width: nat): (s: string)
    ensures |s| >= width && |s| >= 1
    ensures (n < 0) == (s[0] == '-')
  {
    if n < 0 then
      var digits := NatToString(-n);
      var w: nat := if width == 0 then 0 else width - 1;
      "-" + Repeat('0', if |digits| < w then w - |digits| else 0) + digits
    else
      var digits := NatToString(n);
      Repeat('0', if |digits| < width then width - |digits| else 0) + digits
  }

  function DigitValue(c: char): (d: nat)
    requires '0' <= c <= '9'
    ensures d < 10 && DigitChar(d) == c
  {
    (c as int - '0' as int)
  }

  predicate AllDigits(s: string) {
    forall i :: 0 <= i < |s| ==> '0' <= s[i] <= '9'
  }

  /** The number a non-empty string of decimal digits denotes. */
  function DigitsValue(s: string): (n: nat)
    requires AllDigits(s)
  {
    if |s| == 0 then 0 else DigitsValue(s[..|s| - 1]) * 10 + DigitValue(s[|s| - 1])
  }

  /**
   * `Integer.parseInt(s)`: an optional sign followed by at least one decimal
   * digit; anything else is a `NumberFormatException` (here `None`).
   * Values outside the 32-bit range are not rejected by this model.
   */
  function ParseInt(s: string): (r: Option<int>)
    ensures r.Some? ==> |s| >= 1
  {
    if |s| >= 2 && s[0] == '-' && AllDigits(s[1..]) then Some(0 - DigitsValue(s[1..]))
    else if |s| >= 2 && s[0] == '+' && AllDigits(s[1..]) then Some(DigitsValue(s[1..]))
    else if |s| >= 1 && AllDigits(s) then Some(DigitsValue(s))
    else None
  }

  lemma {:induction false} NatToStringValue(n: nat)
    ensures AllDigits(NatToString(n)) && DigitsValue(NatToString(n)) == n
  {
    var s := NatToString(n);
    if n >= 10 {
      var front := NatToString(n / 10);
      NatToStringValue(n / 10);
      LastDigit(front, n % 10);
      assert DigitsValue(s) == DigitsValue(front) * 10 + n % 10;
    } else {
      LastDigit([], n);
    }
  }

  /** Appending the character of digit `d` to a digit string appends `d` to its value. */
  lemma LastDigit(front: string, d: nat)
    requires AllDigits(front) && d < 10
    ensures AllDigits(front + [DigitChar(d)])
    ensures DigitsValue(front + [DigitChar(d)]) == DigitsValue(front) * 10 + d
  {
    var s := front + [DigitChar(d)];
    assert s[..|s| - 1] == front;
    DigitRoundTrip(d);
  }

  lemma DigitRoundTrip(d: nat)
    requires d < 10
    ensures DigitValue(DigitChar(d)) == d
  {
  }

  /** Printing an `int` and parsing it back gives the same `int`. */
  lemma ParseIntOfIntToString(n: int)
    ensures ParseInt(IntToString(n)) == Some(n)
  {
    var s := IntToString(n);
    if n < 0 {
      var digits := NatToString(-n);
      NatToStringValue(-n);
      assert s[1..] == digits;
      ParseNegative(s);
    } else {
      NatToStringValue(n);
      ParseUnsigned(s);
    }
  }

  lemma ParseNegative(s: string)
    requires |s| >= 2 && s[0] == '-' && AllDigits(s[1..])
    ensures ParseInt(s) == Some(0 - DigitsValue(s[1..]))
  {
  }

  lemma ParseUnsigned(digits: string)
    requires |digits| >= 1 && AllDigits(digits)
    ensures ParseInt(digits) == Some(DigitsValue(digits))
  {
    assert digits[0] != '-' && digits[0] != '+';
  }

  /** Java's `String.hashCode`: `h = 31 * h + c` over the characters, in 32-bit arithmetic. */
  function StringHash(s: string): (h: int)
    ensures IsInt32(h)
  {
    if |s| == 0 then 0 else Wrap32(31 * StringHash(s[..|s| - 1]) + s[|s| - 1] as int)
  }

  /** ASCII upper-case letters to lower case, as `toLowerCase` does for enum names. */
  function ToLowerAscii(s: string): (r: string)
    ensures |r| == |s|
  {
    seq(|s|, i requires 0 <= i < |s| => LowerAscii(s[i]))
  }

  function LowerAscii(c: char): char {
    if 'A' <= c <= 'Z' then (c as int + 32) as char else c
  }

  function Pow10(k: nat): (p: nat)
    ensures p >= 1
  {
    if k == 0 then 1 else 10 * Pow10(k - 1)
  }

  /** A number below 10^k has at most k digits. */
  lemma {:induction false} NatToStringLength(n: nat, k: nat)
    requires 1 <= k && n < Pow10(k)
    ensures |NatToString(n)| <= k
  {
    if n >= 10 {
      NatToStringLength(n / 10, k - 1);
    }
  }

  /** Zeros denote 0. */
  lemma {:induction false} ZerosValue(k: nat)
    ensures AllDigits(Repeat('0', k)) && DigitsValue(Repeat('0', k)) == 0
  {
    if k > 0 {
      ZerosValue(k - 1);
      assert Repeat('0', k)[..k - 1] == Repeat('0', k - 1);
    }
  }

  /** Leading zeros do not change the number a digit string denotes. */
  lemma {:induction false} LeadingZerosValue(k: nat, s: string)
    requires AllDigits(s)
    ensures AllDigits(Repeat('0', k) + s) && DigitsValue(Repeat('0', k) + s) == DigitsValue(s)
  {
    var z := Repeat('0', k);
    if s == [] {
      assert z + s == z;
      ZerosValue(k);
    } else {
      var front := s[..|s| - 1];
      LeadingZerosValue(k, front);
      assert (z + s)[..|z + s| - 1] == z + front;
    }
  }

  /**
   * `%0wd` of a number with at most w digits: exactly w characters, all
   * digits, denoting the number.
   */
  lemma PaddedValue(n: nat, w: nat)
    requires 1 <= w && n < Pow10(w)
    ensures var s := FormatZeroPadded(n, w); |s| == w && AllDigits(s) && DigitsValue(s) == n
  {
    var digits := NatToString(n);
    NatToStringLength(n, w);
    NatToStringValue(n);
    var k: nat := w - |digits|;
    PaddedForm(n, w);
    LeadingZerosValue(k, digits);
  }

  /** A non-negative number with at most w digits is padded with exactly the missing zeros. */
  lemma PaddedForm(n: nat, w: nat)
    requires |NatToString(n)| <= w
    ensures FormatZeroPadded(n, w) == Repeat('0', w - |NatToString(n)|) + NatToString(n)
  {
  }

  /** `%0wd` of a negative number: the sign, then the magnitude padded to one place less. */
  lemma NegativePadded(n: int, w: nat)
    requires n < 0 && w >= 1
    ensures FormatZeroPadded(n, w) == "-" + FormatZeroPadded(-n, w - 1)
  {
  }

  /** `s` is a string of decimal digits denoting `n`. */
  predicate Denotes(s: string, n: int) {
    AllDigits(s) && DigitsValue(s) == n
  }

  lemma TwoDigits(n: int)
    requires 0 <= n < 100
    ensures |FormatZeroPadded(n, 2)| == 2 && Denotes(FormatZeroPadded(n, 2), n)
  {
    assert Pow10(2) == 100;
    PaddedValue(n, 2);
  }
}
