/**
  Integer literals of the IR (`ConstantInt`): a bit width and a raw bit pattern.
  The store instruction reads a literal sign-extended (`getSExtValue`) while the
  arithmetic fold reads it zero-extended (`getZExtValue`); both are modelled so
  that the difference on negative literals is visible.
 */
module Literals {

  function Pow2(n: nat): (r: int)
    ensures r >= 1
  {
    if n == 0 then 1 else 2 * Pow2(n - 1)
  }

  /** A raw integer constant: `bits` is the unsigned bit pattern of a `width`-bit integer. */
  datatype IntConst = IntConst(width: nat, bits: nat)

  /** The constants `getSExtValue`/`getZExtValue` accept: 1 to 64 bits wide, pattern in range. */
  type ConstantInt = c: IntConst | 1 <= c.width <= 64 && c.bits < Pow2(c.width)
    witness IntConst(1, 0)

  /** `getZExtValue`: the bit pattern read as an unsigned number. */
  function ZExt(c: ConstantInt): (r: nat)
    ensures r < Pow2(c.width)
  {
    c.bits
  }

  /** `getSExtValue`: the bit pattern read as a two's-complement number. */
  function SExt(c: ConstantInt): (r: int)
    ensures -Pow2(c.width - 1) <= r < Pow2(c.width - 1)
    ensures r == ZExt(c) || r == ZExt(c) - Pow2(c.width)
  {
    assert Pow2(c.width) == 2 * Pow2(c.width - 1);
    if c.bits < Pow2(c.width - 1) then c.bits else c.bits - Pow2(c.width)
  }

  /** The `width`-bit two's-complement encoding of `n`, as the compiler emits a literal. */
  function Encode(width: nat, n: int): (c: ConstantInt)
    requires 1 <= width <= 64
    requires -Pow2(width - 1) <= n < Pow2(width - 1)
    ensures c.width == width
  {
    assert Pow2(width) == 2 * Pow2(width - 1);
    IntConst(width, if n >= 0 then n else n + Pow2(width))
  }

  /** Sign extension undoes the encoding: a stored literal keeps its source value. */
  lemma SExtEncode(width: nat, n: int)
    requires 1 <= width <= 64
    requires -Pow2(width - 1) <= n < Pow2(width - 1)
    ensures SExt(Encode(width, n)) == n
  {
    assert Pow2(width) == 2 * Pow2(width - 1);
  }

  /**
    Zero extension agrees with the source value exactly for non-negative literals;
    a negative literal reads as its value plus 2^width.
   */
  lemma ZExtEncode(width: nat, n: int)
    requires 1 <= width <= 64
    requires -Pow2(width - 1) <= n < Pow2(width - 1)
    ensures n >= 0 ==> ZExt(Encode(width, n)) == n
    ensures n < 0 ==> ZExt(Encode(width, n)) == n + Pow2(width)
  {
  }

  /** The two readings of a literal coincide exactly when its sign bit is clear. */
  lemma SExtIsZExtIffSignClear(c: ConstantInt)
    ensures SExt(c) == ZExt(c) <==> c.bits < Pow2(c.width - 1)
  {
    assert Pow2(c.width) == 2 * Pow2(c.width - 1);
  }
}
