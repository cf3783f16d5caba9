/** Decimal numerals: the formatting Rust's `{}` applies to integers and the
    parsing `str::parse::<usize>()` and `str::parse::<i64>()` perform.

    Rust's parser accepts an optional sign (`+` for unsigned types, `+` or
    `-` for signed ones) followed by one or more ASCII digits, leading zeros
    included, and fails on an empty string, a lone sign, any other byte, or a
    value outside the type's range. */
module Decimal {
  import opened Common

  const ZERO: Byte := 48   // '0'
  const PLUS: Byte := 43   // '+'
  const MINUS: Byte := 45  // '-'

  predicate IsDigit(b: Byte) {
    ZERO <= b <= ZERO + 9
  }

  predicate AllDigits(s: seq<Byte>) {
    forall i :: 0 <= i < |s| ==> IsDigit(s[i])
  }

  /** The number a digit string denotes, most significant digit first. */
  function DigitsValue(d: seq<Byte>): nat
    requires AllDigits(d)
  {
    if |d| == 0 then 0 else DigitsValue(d[..|d| - 1]) * 10 + (d[|d| - 1] - ZERO)
  }

  /** Rust's `{}` formatting of a non-negative integer. */
  function NatToDecimal(n: nat): (r: seq<Byte>)
    ensures |r| > 0 && AllDigits(r)
    ensures |r| > 1 ==> r[0] != ZERO
    ensures r[0] == ZERO ==> n == 0
  {
    if n < 10 then [ZERO + n] else NatToDecimal(n / 10) + [ZERO + n % 10]
  }

  /** Rust's `{}` formatting of a signed integer: a `-` and the magnitude. */
  function IntToDecimal(n: int): (r: seq<Byte>)
    ensures |r| > 0
    ensures forall i :: 0 <= i < |r| ==> r[i] < 0x80
  {
    if n < 0 then [MINUS] + NatToDecimal(-n) else NatToDecimal(n)
  }

  /** `str::parse::<usize>()` on a 64-bit target. */
  function ParseUsize(s: seq<Byte>): (r: Option<nat>)
    ensures r.Some? ==> r.value <= USIZE_MAX
    ensures r.Some? ==> |s| > 0 && (s[0] == PLUS || IsDigit(s[0]))
  {
    var digits := if |s| > 0 && s[0] == PLUS then s[1..] else s;
    if |digits| == 0 || !AllDigits(digits) then None
    else if DigitsValue(digits) <= USIZE_MAX then Some(DigitsValue(digits))
    else None
  }

  /** `str::parse::<i64>()`. */
  function ParseI64(s: seq<Byte>): (r: Option<I64>)
    ensures r.Some? ==> |s| > 0 && (s[0] == PLUS || s[0] == MINUS || IsDigit(s[0]))
    ensures r.Some? && r.value < 0 ==> s[0] == MINUS
  {
    if |s| == 0 then None
    else
      var negative := s[0] == MINUS;
      var digits := if s[0] == PLUS || s[0] == MINUS then s[1..] else s;
      if |digits| == 0 || !AllDigits(digits) then None
      else if negative then
        (if DigitsValue(digits) <= -I64_MIN then var v: I64 := -(DigitsValue(digits) as int); Some(v) else None)
      else
        (if DigitsValue(digits) <= I64_MAX then Some(DigitsValue(digits)) else None)
  }

  lemma {:induction false} DecimalValue(n: nat)
    ensures DigitsValue(NatToDecimal(n)) == n
  {
    if n >= 10 {
      var r := NatToDecimal(n);
      var p := NatToDecimal(n / 10);
      assert r[..|r| - 1] == p;
      DecimalValue(n / 10);
    }
  }

  /** Formatting a `usize` and parsing it back gives the same number. */
  lemma ParseUsizeOfDecimal(n: nat)
    requires n <= USIZE_MAX
    ensures ParseUsize(NatToDecimal(n)) == Some(n)
  {
    DecimalValue(n);
  }

  /** Formatting an `i64` and parsing it back gives the same number. */
  lemma ParseI64OfDecimal(n: I64)
    ensures ParseI64(IntToDecimal(n)) == Some(n)
  {
    if n < 0 {
      var d := IntToDecimal(n);
      var m: nat := -(n as int);
      assert d[1..] == NatToDecimal(m);
      DecimalValue(m);
    } else {
      DecimalValue(n);
    }
  }

  /** Leading zeros and a `+` sign are accepted by both parsers; this is what
      lets a length prefix such as `05` or `+5` through. */
  lemma LeadingZerosAndPlusAccepted()
    ensures ParseUsize([ZERO, ZERO + 5]) == Some(5)
    ensures ParseUsize([PLUS, ZERO + 5]) == Some(5)
    ensures ParseUsize([MINUS, ZERO + 5]) == None
    ensures ParseUsize([]) == None
    ensures ParseI64([MINUS, ZERO, ZERO + 3]) == Some(-3)
    ensures ParseI64([PLUS, ZERO + 5]) == Some(5)
    ensures ParseI64([MINUS]) == None
  {
    assert [ZERO][..0] == [] && [ZERO + 5][..0] == [];
    assert DigitsValue([ZERO]) == 0;
    assert DigitsValue([ZERO + 5]) == 5;
    assert [ZERO, ZERO + 5][..1] == [ZERO];
    assert DigitsValue([ZERO, ZERO + 5]) == 5;
    assert [ZERO, ZERO + 3][..1] == [ZERO];
    assert DigitsValue([ZERO, ZERO + 3]) == 3;
    assert [PLUS, ZERO + 5][1..] == [ZERO + 5];
    assert [MINUS, ZERO, ZERO + 3][1..] == [ZERO, ZERO + 3];
  }
}
