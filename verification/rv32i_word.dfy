/** The 32-bit word operations the RV32I pipeline builds on. A `UInt(1)` signal is a `bool`
    here; `Int(32)` views of a word are expressed through its sign bit, so that every statement
    stays within bitvector arithmetic. */
module Rv32iWord {

  /** A one-bit signal as it is packed into a bundle. */
  function BitOf(b: bool): (r: bv1)
    ensures r == 1 <==> b
  {
    if b then 1 else 0
  }

  /** A one-bit comparison result widened to a word, as SLT and SLTU deliver it. */
  function FlagWord(b: bool): bv32
  {
    if b then 1 else 0
  }

  /** `x.bitcast(Int(32)) < 0`. */
  predicate Negative(x: bv32)
  {
    x & 0x8000_0000 != 0
  }

  /** `a.bitcast(Int(32)) < b.bitcast(Int(32))`, computed by flipping both sign bits and comparing
      the results unsigned. */
  predicate SignedLess(a: bv32, b: bv32)
  {
    (a ^ 0x8000_0000) < (b ^ 0x8000_0000)
  }

  /** Two's-complement order, case by case on the signs: a negative word is below every
      non-negative one, and words of the same sign compare like their unsigned patterns. */
  lemma SignedLessBySign(a: bv32, b: bv32)
    ensures SignedLess(a, b) <==>
      (Negative(a) && !Negative(b)) || (Negative(a) == Negative(b) && a < b)
  {
  }

  /** `a.bitcast(Int(32)) >> n`: the arithmetic right shift, which fills with copies of the
      sign bit. */
  function Sra(x: bv32, n: bv32): bv32
    requires n < 32
  {
    if Negative(x) then !((!x) >> n) else x >> n
  }

  /** The arithmetic shift keeps the sign and agrees with the logical shift on non-negative
      words. */
  lemma SraKeepsSign(x: bv32, n: bv32)
    requires n < 32
    ensures Negative(Sra(x, n)) == Negative(x)
    ensures !Negative(x) ==> Sra(x, n) == x >> n
  {
    if Negative(x) {
    } else {
    }
  }
}
