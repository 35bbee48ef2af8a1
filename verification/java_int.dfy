/** Java's 32-bit `int` arithmetic, stated over Dafny's unbounded integers. */
module JavaInt {

  const TWO_TO_31: int := 0x8000_0000
  const TWO_TO_32: int := 0x1_0000_0000

  predicate IsInt32(x: int) {
    -TWO_TO_31 <= x < TWO_TO_31
  }

  /** The `int` that Java's two's-complement arithmetic leaves when the exact result is `x`. */
  function Wrap32(x: int): (r: int)
    ensures IsInt32(r)
    ensures (r - x) % TWO_TO_32 == 0
    ensures IsInt32(x) ==> r == x
  {
    (x + TWO_TO_31) % TWO_TO_32 - TWO_TO_31
  }

  /** Values congruent modulo 2^32 wrap to the same `int`: Java's `+`, `-` and `*` on `int` are arithmetic modulo 2^32. */
  lemma WrapCongruent(x: int, y: int)
    requires (x - y) % TWO_TO_32 == 0
    ensures Wrap32(x) == Wrap32(y)
  {
    var k := (x - y) / TWO_TO_32;
    assert x - y == k * TWO_TO_32;
    assert x + TWO_TO_31 == (y + TWO_TO_31) + k * TWO_TO_32;
    ModMultiple(y + TWO_TO_31, k);
  }

  lemma ModMultiple(a: int, k: int)
    ensures (a + k * TWO_TO_32) % TWO_TO_32 == a % TWO_TO_32
  {
    var q := a / TWO_TO_32;
    var r := a % TWO_TO_32;
    assert a + k * TWO_TO_32 == (q + k) * TWO_TO_32 + r;
  }

  /** Scaling a wrapped value and adding to it wraps to the same `int` as the exact computation. */
  lemma WrapScaled(c: int, k: int, x: int)
    ensures Wrap32(c + k * Wrap32(x)) == Wrap32(c + k * x)
  {
    var j := (Wrap32(x) - x) / TWO_TO_32;
    assert Wrap32(x) - x == j * TWO_TO_32;
    assert (c + k * Wrap32(x)) - (c + k * x) == (k * j) * TWO_TO_32;
    WrapCongruent(c + k * Wrap32(x), c + k * x);
  }

  /** A value from 2^31 up to 2^32 wraps to itself less 2^32, a negative `int`. */
  lemma WrapOnce(x: int)
    requires TWO_TO_31 <= x < TWO_TO_32
    ensures Wrap32(x) == x - TWO_TO_32 < 0
  {
    assert (x + TWO_TO_31) / TWO_TO_32 == 1;
  }

  /** The bit pattern of a Java `int` (or of the low 32 bits of a wider value). */
  function Bits32(x: int): bv32 {
    (x % TWO_TO_32) as bv32
  }

  /** Java's `/`, which truncates toward zero (Dafny's `/` is Euclidean). */
  function JavaDiv(a: int, b: int): (q: int)
    requires b > 0
    ensures a >= 0 ==> q == a / b
    ensures a < 0 ==> q == -((-a) / b)
  {
    if a >= 0 then a / b else -((-a) / b)
  }

  /** Java's `%`, whose result takes the sign of the dividend. */
  function JavaRem(a: int, b: int): (r: int)
    requires b > 0
    ensures a == JavaDiv(a, b) * b + r
    ensures a >= 0 ==> 0 <= r < b
    ensures a < 0 ==> -b < r <= 0
  {
    if a >= 0 then a % b else -((-a) % b)
  }
}
