/** Decimal text for integers and booleans: Go's `strconv.Itoa`,
    `strconv.ParseInt(s, 10, bitSize)`, `strconv.Atoi`, `strconv.ParseBool`
    and the zero padding of `time.Format`. */
module Decimal {
  import opened Wrappers

  predicate IsDigit(c: char) { '0' <= c <= '9' }

  predicate AllDigits(s: string) {
    forall i :: 0 <= i < |s| ==> IsDigit(s[i])
  }

  function DigitChar(d: nat): (c: char)
    requires d < 10
    ensures IsDigit(c) && DigitValue(c) == d
  {
    (('0' as int) + d) as char
  }

  function DigitValue(c: char): nat
    requires IsDigit(c)
  {
    c as int - '0' as int
  }

  /** The value of a string of decimal digits (leading zeros allowed). */
  function ValueOf(s: string): nat
    requires AllDigits(s)
  {
    if s == [] then 0 else ValueOf(s[..|s| - 1]) * 10 + DigitValue(s[|s| - 1])
  }

  function Pow10(k: nat): (r: nat)
    ensures r >= 1
  {
    if k == 0 then 1 else 10 * Pow10(k - 1)
  }

  /** The decimal digits of `n` without leading zeros ("0" for zero). */
  function Digits(n: nat): (s: string)
    ensures 1 <= |s| && AllDigits(s)
    ensures ValueOf(s) == n
    ensures |s| > 1 ==> s[0] != '0'
  {
    if n < 10 then [DigitChar(n)]
    else
      var s := Digits(n / 10) + [DigitChar(n % 10)];
      assert s[..|s| - 1] == Digits(n / 10);
      s
  }

  /** `strconv.Itoa`: a minus sign for negative numbers, then the digits. */
  function Itoa(i: int): (s: string)
    ensures |s| > 0 && (s[0] == '-' <==> i < 0)
    ensures forall k :: 0 <= k < |s| ==> IsDigit(s[k]) || (k == 0 && s[k] == '-')
  {
    if i < 0 then "-" + Digits(-i) else Digits(i)
  }

  /** A decimal text has no line break. */
  lemma ItoaNoNewline(i: int)
    ensures '\n' !in Itoa(i)
  {
    var s := Itoa(i);
    assert forall j :: 0 <= j < |s| ==> s[j] != '\n';
  }

  /** `n` in decimal, zero-padded on the left to at least `width` digits (the
      `appendInt(b, n, width)` of Go's time formatting). */
  function Pad(n: nat, width: nat): (s: string)
    ensures AllDigits(s) && ValueOf(s) == n
    ensures 1 <= width && n < Pow10(width) ==> |s| == width
  {
    var d := Digits(n);
    if |d| >= width then
      DigitsFit(n, width);
      d
    else
      PadValue(width - |d|, d);
      Zeros(width - |d|) + d
  }

  function Zeros(k: nat): (z: string)
    ensures |z| == k && AllDigits(z)
  {
    if k == 0 then "" else "0" + Zeros(k - 1)
  }

  lemma {:induction false} PadValue(k: nat, d: string)
    requires AllDigits(d)
    ensures AllDigits(Zeros(k) + d) && ValueOf(Zeros(k) + d) == ValueOf(d)
  {
    if k > 0 {
      var t := Zeros(k - 1) + d;
      PadValue(k - 1, d);
      LeadingZero(t);
      assert Zeros(k) == "0" + Zeros(k - 1);
      assert Zeros(k) + d == "0" + t;
    } else {
      assert Zeros(k) + d == d;
    }
  }

  lemma {:induction false} LeadingZero(t: string)
    requires AllDigits(t)
    ensures AllDigits("0" + t) && ValueOf("0" + t) == ValueOf(t)
  {
    if t != [] {
      var s := "0" + t;
      assert s[..|s| - 1] == "0" + t[..|t| - 1];
      LeadingZero(t[..|t| - 1]);
    }
  }

  lemma {:induction false} DigitsFit(n: nat, width: nat)
    ensures 1 <= width && n < Pow10(width) ==> |Digits(n)| <= width
  {
    if n >= 10 && n < Pow10(width) {
      assert width > 1 by {
        if width <= 1 {
          assert Pow10(width) <= 10;
        }
      }
      assert n / 10 < Pow10(width - 1);
      DigitsFit(n / 10, width - 1);
    }
  }

  /** A digit string with `width` digits has a value below `10^width`. */
  lemma {:induction false} ValueBound(s: string)
    requires AllDigits(s)
    ensures ValueOf(s) < Pow10(|s|)
  {
    if s != [] {
      ValueBound(s[..|s| - 1]);
    }
  }

  /** Digit strings of equal length are equal when their values are. */
  lemma {:induction false} ValueOfInjective(a: string, b: string)
    requires AllDigits(a) && AllDigits(b) && |a| == |b|
    requires ValueOf(a) == ValueOf(b)
    ensures a == b
  {
    if a != [] {
      var n := |a| - 1;
      assert DigitValue(a[n]) == ValueOf(a) % 10 == DigitValue(b[n]);
      assert ValueOf(a[..n]) == ValueOf(a) / 10 == ValueOf(b[..n]);
      ValueOfInjective(a[..n], b[..n]);
      assert a == a[..n] + [a[n]] && b == b[..n] + [b[n]];
    }
  }

  /** Padding the value of a digit string to its own width gives it back. */
  lemma PadOfValue(s: string)
    requires AllDigits(s) && |s| >= 1
    ensures Pad(ValueOf(s), |s|) == s
  {
    ValueBound(s);
    ValueOfInjective(Pad(ValueOf(s), |s|), s);
  }

  /** `strconv.ParseInt(s, 10, bitSize)`: an optional `+` or `-`, then one or
      more decimal digits (leading zeros allowed, no underscores with base 10),
      whose value must fit a signed `bitSize`-bit integer. */
  function ParseInt(s: string, bitSize: nat): (r: Result<int>)
    requires 1 <= bitSize <= 64
    ensures r.Ok? ==> -Pow2(bitSize - 1) <= r.value < Pow2(bitSize - 1)
    ensures r.Ok? <==> SyntaxOk(s) && -Pow2(bitSize - 1) <= SignedValue(s) < Pow2(bitSize - 1)
    ensures r.Ok? ==> r.value == SignedValue(s)
    ensures !r.Panic?
  {
    if !SyntaxOk(s) then Err("invalid syntax")
    else
      var v := SignedValue(s);
      if v < -Pow2(bitSize - 1) || v >= Pow2(bitSize - 1) then Err("value out of range")
      else Ok(v)
  }

  /** `strconv.Atoi` on a 64-bit platform. */
  function Atoi(s: string): Result<int> {
    ParseInt(s, 64)
  }

  predicate HasSign(s: string) {
    |s| > 0 && (s[0] == '+' || s[0] == '-')
  }

  function Unsigned(s: string): string {
    if HasSign(s) then s[1..] else s
  }

  /** The text is a sign (optional) followed by at least one digit. */
  predicate SyntaxOk(s: string) {
    |Unsigned(s)| > 0 && AllDigits(Unsigned(s))
  }

  function SignedValue(s: string): int
    requires SyntaxOk(s)
  {
    if |s| > 0 && s[0] == '-' then -(ValueOf(Unsigned(s)) as int) else ValueOf(Unsigned(s))
  }

  function Pow2(k: nat): (r: int)
    ensures r >= 1
  {
    if k == 0 then 1 else 2 * Pow2(k - 1)
  }

  /** Parsing the text `Itoa` prints gives the number back, for every number
      that fits the parser's width. */
  lemma ParseItoa(i: int, bitSize: nat)
    requires 1 <= bitSize <= 64
    requires -Pow2(bitSize - 1) <= i < Pow2(bitSize - 1)
    ensures ParseInt(Itoa(i), bitSize) == Ok(i)
  {
    var s := Itoa(i);
    if i < 0 {
      assert Unsigned(s) == Digits(-i);
    } else {
      assert Unsigned(s) == Digits(i);
    }
  }

  /** `Itoa` never prints the same text for two numbers. */
  lemma ItoaInjective(i: int, j: int)
    requires Itoa(i) == Itoa(j)
    ensures i == j
  {
    if i < 0 && j < 0 {
      assert Digits(-i) == Itoa(i)[1..] == Itoa(j)[1..] == Digits(-j);
    }
  }

  /** `strconv.ParseBool`. */
  function ParseBool(s: string): (r: Result<bool>)
    ensures r.Ok? <==> s in TrueTexts + FalseTexts
    ensures r.Ok? ==> (r.value <==> s in TrueTexts)
  {
    if s in TrueTexts then Ok(true)
    else if s in FalseTexts then Ok(false)
    else Err("invalid syntax")
  }

  const TrueTexts: set<string> := {"1", "t", "T", "true", "TRUE", "True"}
  const FalseTexts: set<string> := {"0", "f", "F", "false", "FALSE", "False"}
}
