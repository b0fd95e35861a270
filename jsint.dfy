/**
 * JavaScript's 32-bit integer conversions (ToInt32, ToUint32) on mathematical
 * integers, and their link to the `bv32` bit-vector type that models the
 * results of `|`, `^`, `>>>` and `Math.imul`.
 */
module JsInt {

  const TWO32: int := 0x1_0000_0000
  const TWO31: int := 0x8000_0000

  /** ToUint32: the integer reduced modulo 2^32 into [0, 2^32). */
  function ToUint32(x: int): (r: int)
    ensures 0 <= r < TWO32
    ensures (x - r) % TWO32 == 0
  {
    x % TWO32
  }

  /** ToInt32: the integer reduced modulo 2^32 into [-2^31, 2^31). */
  function ToInt32(x: int): (r: int)
    ensures -TWO31 <= r < TWO31
    ensures (x - r) % TWO32 == 0
  {
    var u := ToUint32(x);
    if u >= TWO31 then u - TWO32 else u
  }

  /** The 32 bits JavaScript's bitwise operators see for the number `x`. */
  function Bits(x: int): bv32 {
    ToUint32(x) as bv32
  }

  /** Math.imul: the low 32 bits of the product. */
  function Imul(a: bv32, b: bv32): bv32 {
    a * b
  }

  /** Two integers congruent modulo 2^32 have the same ToUint32. */
  lemma {:induction false} ToUint32Congruent(x: int, y: int)
    requires (x - y) % TWO32 == 0
    ensures ToUint32(x) == ToUint32(y)
  {
    var q := (x - y) / TWO32;
    assert x - y == q * TWO32;
    assert x == y + q * TWO32;
    ModShift(y, q);
  }

  lemma {:induction false} ModShift(y: int, q: int)
    decreases if q > 0 then q else -q
    ensures (y + q * TWO32) % TWO32 == y % TWO32
  {
    if q > 0 {
      ModShift(y, q - 1);
      assert y + q * TWO32 == (y + (q - 1) * TWO32) + TWO32;
    } else if q < 0 {
      ModShift(y, q + 1);
      assert y + q * TWO32 == (y + (q + 1) * TWO32) - TWO32;
    }
  }

  /** Two integers congruent modulo 2^32 have the same ToInt32. */
  lemma ToInt32Congruent(x: int, y: int)
    requires (x - y) % TWO32 == 0
    ensures ToInt32(x) == ToInt32(y)
  {
    ToUint32Congruent(x, y);
  }
}
