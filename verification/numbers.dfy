/**
 * Fixed-width integer bounds and decimal text: Rust's `i32::from_str`, the
 * `{}` formatting of integers, and the `clamp` to the i16 range.
 */
module Numbers {
  import opened Wrappers
  import opened Text

  const I16_MIN: int := -0x8000
  const I16_MAX: int := 0x7FFF
  const I32_MIN: int := -0x8000_0000
  const I32_MAX: int := 0x7FFF_FFFF

  predicate InI16(x: int) {
    I16_MIN <= x <= I16_MAX
  }

  predicate InI32(x: int) {
    I32_MIN <= x <= I32_MAX
  }

  /** `x.clamp(i16::MIN, i16::MAX)`. */
  function ClampI16(x: int): (r: int)
    ensures InI16(r)
    ensures InI16(x) ==> r == x
    ensures x < I16_MIN ==> r == I16_MIN
    ensures x > I16_MAX ==> r == I16_MAX
  {
    if x < I16_MIN then I16_MIN else if x > I16_MAX then I16_MAX else x
  }

  lemma ClampI16Monotone(x: int, y: int)
    requires x <= y
    ensures ClampI16(x) <= ClampI16(y)
  {
  }

  /** Clamping commutes with negation except at the asymmetric ends of i16. */
  lemma ClampI16Negate(x: int)
    ensures -I16_MAX <= ClampI16(x) < I16_MAX ==> ClampI16(-x) == -ClampI16(x)
    ensures ClampI16(x) == I16_MAX ==> ClampI16(-x) in {-I16_MAX, I16_MIN}
    ensures ClampI16(x) == I16_MIN ==> ClampI16(-x) == I16_MAX
  {
  }

  /** Magnitude of an integer. */
  function Abs(x: int): (m: nat)
    ensures m == x || m == -x
  {
    if x < 0 then -x else x
  }

  predicate AllDigits(s: string) {
    forall i :: 0 <= i < |s| ==> IsAsciiDigit(s[i])
  }

  function DigitValue(c: char): int {
    c as int - '0' as int
  }

  function DigitChar(d: int): char
    requires 0 <= d < 10
  {
    (d + '0' as int) as char
  }

  /** The value of a run of decimal digits, most significant first. */
  function DigitsValue(ds: string): (v: nat)
    requires AllDigits(ds)
  {
    if ds == [] then 0
    else 10 * DigitsValue(ds[..|ds| - 1]) + DigitValue(ds[|ds| - 1])
  }

  /** Decimal rendering of a natural number, no leading zeros. */
  function NatToString(n: nat): (s: string)
    ensures s != [] && AllDigits(s)
  {
    if n < 10 then [DigitChar(n)] else NatToString(n / 10) + [DigitChar(n % 10)]
  }

  /** Rust's `{}` formatting of an integer. */
  function IntToString(n: int): string {
    if n < 0 then "-" + NatToString(-n) else NatToString(n)
  }

  /**
   * Rust's `str::parse::<i32>()`: an optional `+` or `-`, then one or more
   * ASCII digits and nothing else, with a value that fits in 32 bits.
   * Anything else is an error, modelled as None.
   */
  function ParseI32(s: string): (r: Option<int>)
    ensures r.Some? ==> InI32(r.value)
    ensures r.Some? ==> s != [] && AllDigits(if s[0] == '+' || s[0] == '-' then s[1..] else s)
    ensures r.Some? && s[0] != '-' ==> r.value >= 0
  {
    if s == [] then None
    else
      var neg := s[0] == '-';
      var digits := if s[0] == '+' || s[0] == '-' then s[1..] else s;
      if digits == [] || !AllDigits(digits) then None
      else
        var mag: int := DigitsValue(digits);
        var v := if neg then -mag else mag;
        if InI32(v) then Some(v) else None
  }

  /** Rendering a natural number and reading it back gives the number. */
  lemma {:induction false} DigitsValueOfNatToString(n: nat)
    ensures DigitsValue(NatToString(n)) == n
  {
    if n >= 10 {
      DigitsValueOfNatToString(n / 10);
      var s := NatToString(n / 10) + [DigitChar(n % 10)];
      assert s[..|s| - 1] == NatToString(n / 10);
    }
  }

  lemma ParseI32OfNatToString(n: nat)
    requires n <= I32_MAX
    ensures ParseI32(NatToString(n)) == Some(n)
  {
    var s := NatToString(n);
    DigitsValueOfNatToString(n);
    assert s[0] != '-' && s[0] != '+' by {
      assert IsAsciiDigit(s[0]);
    }
  }

  lemma ParseI32OfNegated(n: int)
    requires 0 < n <= -I32_MIN
    ensures ParseI32("-" + NatToString(n)) == Some(-n)
  {
    var s := "-" + NatToString(n);
    DigitsValueOfNatToString(n);
    assert s[0] == '-';
    assert s[1..] == NatToString(n);
  }

  /** `parse::<i32>` inverts the decimal rendering on the whole i32 range. */
  lemma ParseI32OfIntToString(n: int)
    requires InI32(n)
    ensures ParseI32(IntToString(n)) == Some(n)
  {
    if n < 0 {
      ParseI32OfNegated(-n);
    } else {
      ParseI32OfNatToString(n);
    }
  }
}
