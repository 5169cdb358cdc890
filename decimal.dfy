/**
 * Go's fixed-width integers as used by the tool: the `uint` flag value, its
 * conversion to `int32`, and the decimal text that `fmt.Sprint` prints for an
 * `int32`. A parser is given as the partner of the printer.
 */
module Decimal {

  import opened Wrappers

  const TwoTo31: int := 0x8000_0000
  const TwoTo32: int := 0x1_0000_0000
  const TwoTo64: int := 0x1_0000_0000_0000_0000

  /** Go `int32`. */
  type Int32 = x: int | -TwoTo31 <= x < TwoTo31

  /** Go `uint` on a 64-bit platform (what `flag.Uint` yields). */
  type Uint64 = x: int | 0 <= x < TwoTo64

  /**
   * The conversion `int32(u)`: keep the low 32 bits of `u` and read them as a
   * two's-complement number.
   */
  function ToInt32(u: Uint64): (r: Int32)
    ensures (r - u) % TwoTo32 == 0
    ensures 0 <= u < TwoTo31 ==> r == u
  {
    var low := u % TwoTo32;
    if low < TwoTo31 then low else low - TwoTo32
  }

  /** A converted value is positive exactly when the low 32 bits are non-zero and the sign bit is clear. */
  lemma ToInt32Positive(u: Uint64)
    ensures ToInt32(u) > 0 <==> 0 < u % TwoTo32 < TwoTo31
    ensures u % TwoTo32 == 0 ==> ToInt32(u) == 0
  {
  }

  /** Examples of the wrap-around: 2^32 + 5 becomes 5, 2^31 becomes the most negative int32, 2^32 becomes 0. */
  lemma ToInt32WrapExamples()
    ensures ToInt32(TwoTo32 + 5) == 5
    ensures ToInt32(TwoTo31) == -TwoTo31
    ensures ToInt32(TwoTo32) == 0
    ensures ToInt32(TwoTo32 - 1) == -1
  {
  }

  predicate IsDigit(c: char) { '0' <= c <= '9' }

  function DigitChar(d: nat): (c: char)
    requires d < 10
    ensures IsDigit(c)
  {
    "0123456789"[d]
  }

  function DigitValue(c: char): (d: nat)
    requires IsDigit(c)
    ensures d < 10 && DigitChar(d) == c
  {
    (c as int - '0' as int)
  }

  /** The decimal digits of `n`, most significant first, without leading zeros. */
  function Digits(n: nat): (s: string)
    ensures |s| >= 1
    ensures forall i :: 0 <= i < |s| ==> IsDigit(s[i])
    ensures s[0] == '0' ==> n == 0 && s == "0"
    decreases n
  {
    if n < 10 then [DigitChar(n)] else Digits(n / 10) + [DigitChar(n % 10)]
  }

  /** The number a non-empty digit string denotes. */
  function DigitsValue(s: string): (n: nat)
    requires |s| >= 1
    requires forall i :: 0 <= i < |s| ==> IsDigit(s[i])
    decreases |s|
  {
    if |s| == 1 then DigitValue(s[0])
    else 10 * DigitsValue(s[..|s| - 1]) + DigitValue(s[|s| - 1])
  }

  lemma {:induction false} DigitsRoundTrip(n: nat)
    ensures DigitsValue(Digits(n)) == n
    decreases n
  {
    if n >= 10 {
      var s := Digits(n);
      assert s[..|s| - 1] == Digits(n / 10);
      DigitsRoundTrip(n / 10);
    }
  }

  /** `fmt.Sprint` of an int32: an optional minus sign followed by the digits of the magnitude. */
  function FormatInt32(v: Int32): (s: string)
    ensures |s| >= 1
    ensures s[0] == '-' <==> v < 0
    ensures s[0] == '0' ==> s == "0"
    ensures v < 0 ==> |s| >= 2 && s[1] != '0'
    ensures v >= 0 ==> forall i :: 0 <= i < |s| ==> IsDigit(s[i])
  {
    if v < 0 then "-" + Digits(-(v as int)) else Digits(v)
  }

  /** Reads back what `FormatInt32` writes; `None` for text that is not an optional `-` and digits. */
  function ParseInt(s: string): (r: Option<int>)
  {
    if |s| >= 1 && s[0] == '-' then
      var t := s[1..];
      if |t| >= 1 && forall i :: 0 <= i < |t| ==> IsDigit(t[i]) then Some(-(DigitsValue(t) as int)) else None
    else if |s| >= 1 && forall i :: 0 <= i < |s| ==> IsDigit(s[i]) then Some(DigitsValue(s))
    else None
  }

  /** Parsing the printed text gives back the number. */
  lemma FormatParseRoundTrip(v: Int32)
    ensures ParseInt(FormatInt32(v)) == Some(v)
  {
    var s := FormatInt32(v);
    if v < 0 {
      var m: nat := -(v as int);
      var t := Digits(m);
      assert s == "-" + t;
      assert s[1..] == t;
      DigitsRoundTrip(m);
      assert ParseInt(s) == Some(-(DigitsValue(t) as int));
    } else {
      assert s == Digits(v);
      DigitsRoundTrip(v);
      assert s[0] != '-';
      assert ParseInt(s) == Some(DigitsValue(s) as int);
    }
  }

  /** Formatting is injective: the printed text determines the number. */
  lemma FormatInjective(v: Int32, w: Int32)
    ensures FormatInt32(v) == FormatInt32(w) <==> v == w
  {
    FormatParseRoundTrip(v);
    FormatParseRoundTrip(w);
  }

  lemma FormatExamples()
    ensures FormatInt32(42) == "42"
    ensures FormatInt32(5) == "5"
    ensures FormatInt32(-7) == "-7"
  {
  }
}
