/** The `f64` payload carried by number tokens and number values.

    The library never computes with these numbers: it only copies them from a
    token into a value and compares them (the derived `PartialEq` of `Token`
    and `JsonValue`). A number is therefore modelled by its IEEE-754 binary64
    bit pattern, and only the equality `==` of binary64 is defined on it. */
module Float {

  /** A 64-bit pattern. */
  type Bits64 = n: nat | n < 0x1_0000_0000_0000_0000

  datatype F64 = F64(bits: Bits64)

  const SignBit: nat := 0x8000_0000_0000_0000
  const MantissaSpan: nat := 0x10_0000_0000_0000

  /** The 11-bit biased exponent field. */
  function Exponent(x: F64): nat {
    (x.bits / MantissaSpan) % 2048
  }

  /** The 52-bit fraction field. */
  function Fraction(x: F64): nat {
    x.bits % MantissaSpan
  }

  predicate IsNaN(x: F64) {
    Exponent(x) == 2047 && Fraction(x) != 0
  }

  /** +0.0 or -0.0: every bit but the sign bit is clear. */
  predicate IsZero(x: F64) {
    x.bits % SignBit == 0
  }

  /** Binary64 `==`: a NaN equals nothing (itself included), the two zeros are
      equal, and otherwise two numbers are equal exactly when their bit
      patterns are. */
  predicate FloatEq(x: F64, y: F64) {
    !IsNaN(x) && !IsNaN(y) && (x == y || (IsZero(x) && IsZero(y)))
  }

  const One: F64 := F64(0x3FF0_0000_0000_0000)
  const Two: F64 := F64(0x4000_0000_0000_0000)
  const FortyTwo: F64 := F64(0x4045_0000_0000_0000)
  const PositiveZero: F64 := F64(0)
  const NegativeZero: F64 := F64(0x8000_0000_0000_0000)
  const QuietNaN: F64 := F64(0x7FF8_0000_0000_0000)

  /** `==` on binary64 is reflexive exactly off the NaNs, and symmetric. */
  lemma FloatEqReflexiveOffNaN(x: F64, y: F64)
    ensures FloatEq(x, x) <==> !IsNaN(x)
    ensures FloatEq(x, y) <==> FloatEq(y, x)
  {
  }

  /** The two zeros compare equal although their patterns differ; a NaN does
      not equal itself; 1.0 and 2.0 differ. */
  lemma FloatEqExamples()
    ensures NegativeZero != PositiveZero && FloatEq(NegativeZero, PositiveZero)
    ensures !FloatEq(QuietNaN, QuietNaN)
    ensures !FloatEq(One, Two)
  {
    assert IsNaN(QuietNaN);
    assert !IsNaN(One) && !IsNaN(Two);
  }
}
