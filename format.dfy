/**
 * The status line's text: integer formatting with a minimum number of digits (the "D4" and
 * "D2" format specifiers), truncating division for the elapsed seconds, and the line itself.
 */
module Format {

  /** Integer division rounding toward zero, as a cast of a non-integral quotient to int does. */
  function TruncDiv(a: int, b: int): int
    requires b > 0
  {
    if a >= 0 then a / b else -((-a) / b)
  }

  /** Whole seconds from `start` to `now`, both in milliseconds: a duration's total seconds cast to int. */
  function ElapsedSeconds(now: int, start: int): int {
    TruncDiv(now - start, 1000)
  }

  /** The quotient rounds toward zero: it has the sign of a and the remainder a - q * b lies strictly within b of zero, on a's side. */
  lemma TruncDivRoundsTowardZero(a: int, b: int)
    requires b > 0
    ensures var q := TruncDiv(a, b);
            (a >= 0 ==> q >= 0 && q * b <= a < q * b + b) &&
            (a < 0 ==> q <= 0 && q * b - b < a <= q * b)
  {
  }

  function DigitChar(d: nat): (c: char)
    requires d < 10
    ensures '0' <= c <= '9'
  {
    "0123456789"[d]
  }

  function DigitValue(c: char): nat {
    if '0' <= c <= '9' then (c as int - '0' as int) else 0
  }

  /** The shortest decimal representation of n. */
  function Digits(n: nat): (s: string)
    decreases n
    ensures |s| >= 1
    ensures forall i :: 0 <= i < |s| ==> '0' <= s[i] <= '9'
  {
    if n < 10 then [DigitChar(n)] else Digits(n / 10) + [DigitChar(n % 10)]
  }

  /** The number a string of decimal digits denotes. */
  function Value(s: string): nat {
    if s == [] then 0 else 10 * Value(s[..|s| - 1]) + DigitValue(s[|s| - 1])
  }

  function Zeros(k: nat): (s: string)
    ensures |s| == k && forall i :: 0 <= i < k ==> s[i] == '0'
  {
    if k == 0 then [] else Zeros(k - 1) + ['0']
  }

  /** Left-pads s with zeros to at least k characters. */
  function ZeroPad(s: string, k: nat): (r: string)
    ensures |r| == if |s| >= k then |s| else k
  {
    if |s| >= k then s else Zeros(k - |s|) + s
  }

  /** n in decimal with at least `minDigits` digits, a minus sign before negative numbers. */
  function FormatD(n: int, minDigits: nat): string {
    if n < 0 then "-" + ZeroPad(Digits(-n), minDigits) else ZeroPad(Digits(n), minDigits)
  }

  /** Leading zeros do not change the value of a digit string. */
  lemma {:induction false} ValueLeadingZeros(k: nat, s: string)
    ensures Value(Zeros(k) + s) == Value(s)
    decreases |s|
  {
    if s == [] {
      assert Zeros(k) + s == Zeros(k);
      ZerosValue(k);
    } else {
      assert (Zeros(k) + s)[..|Zeros(k) + s| - 1] == Zeros(k) + s[..|s| - 1];
      ValueLeadingZeros(k, s[..|s| - 1]);
    }
  }

  lemma {:induction false} ZerosValue(k: nat)
    ensures Value(Zeros(k)) == 0
  {
    if k > 0 {
      assert Zeros(k)[..k - 1] == Zeros(k - 1);
      ZerosValue(k - 1);
    }
  }

  /** Reading the digits back gives the number: the decimal representation is a round trip. */
  lemma {:induction false} DigitsRoundTrip(n: nat)
    ensures Value(Digits(n)) == n
    decreases n
  {
    if n >= 10 {
      var s := Digits(n);
      assert s[..|s| - 1] == Digits(n / 10);
      DigitsRoundTrip(n / 10);
    }
  }

  /** A non-negative number formatted with k minimum digits reads back as itself and is at least k long. */
  lemma FormatRoundTrip(n: nat, k: nat)
    ensures Value(FormatD(n, k)) == n
    ensures |FormatD(n, k)| >= k
  {
    var d := Digits(n);
    DigitsRoundTrip(n);
    assert FormatD(n, k) == ZeroPad(d, k);
    if |d| < k {
      assert ZeroPad(d, k) == Zeros(k - |d|) + d;
      ValueLeadingZeros(k - |d|, d);
    }
  }

  /**
   * The status line: score (at least four digits), elapsed seconds (at least two digits) and
   * the in-flight count out of the maximum.
   */
  function StatusLine(score: int, seconds: int, inFlight: int, maxBullets: int): string {
    "Score: " + FormatD(score, 4) + "   Time: " + FormatD(seconds, 2) + "s   Bullets: " +
    FormatD(inFlight, 1) + "/" + FormatD(maxBullets, 1)
  }
}
