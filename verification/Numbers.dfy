/** Go's int64 with wrap-around, and float64 as its bit pattern. */
module Numbers {

  const TWO_63: int := 0x8000_0000_0000_0000
  const TWO_64: int := 0x1_0000_0000_0000_0000

  type int64 = x: int | -TWO_63 <= x < TWO_63

  /** A float64 is its IEEE 754 bit pattern; two values are the same when their bits are. */
  type Float64 = b: int | 0 <= b < TWO_64

  const TWO_52: int := 0x10_0000_0000_0000
  const EXPONENTS: int := 0x800

  /** Neither a NaN nor an infinity: the exponent field is not all ones. */
  predicate Finite(f: Float64) {
    (f / TWO_52) % EXPONENTS != EXPONENTS - 1
  }

  /** The bits of +Inf; without the sign, the NaNs come after it and everything else before. */
  const INFINITY: int := 0x7FF0_0000_0000_0000

  /** Finite by magnitude: below the infinities when the sign bit is left out. */
  lemma FiniteExactly(f: Float64)
    ensures Finite(f) <==> f % 0x8000_0000_0000_0000 < 0x7FF0_0000_0000_0000
    ensures Finite(f) <==> f % TWO_63 < INFINITY
  {
  }

  /** The int64 that a sum or product overflows to. */
  function Wrap(x: int): (r: int64)
    ensures (x - r) % 0x1_0000_0000_0000_0000 == 0
    ensures -0x8000_0000_0000_0000 <= r < 0x8000_0000_0000_0000
  {
    (x + TWO_63) % TWO_64 - TWO_63
  }

  /** Wrap picks the only int64 congruent to its argument. */
  lemma WrapUnique(x: int, r: int64)
    requires (x - r) % TWO_64 == 0
    ensures r == Wrap(x)
  {
  }

  lemma WrapAdd(a: int, b: int)
    ensures Wrap(Wrap(a) + b) == Wrap(a + b)
  {
    WrapUnique(a + b, Wrap(Wrap(a) + b));
  }
}
