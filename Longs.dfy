/** Kotlin `Long`: signed 64-bit two's complement. Arithmetic on `Long`
    wraps around silently; the model writes that wrap out explicitly. */
module Longs {

  const TwoTo64: int := 0x1_0000_0000_0000_0000
  const MinLong: int := -0x8000_0000_0000_0000
  const MaxLong: int := 0x7FFF_FFFF_FFFF_FFFF

  predicate InLong(x: int)
  {
    MinLong <= x <= MaxLong
  }

  /** The `Long` that the exact result `x` wraps to. */
  function Wrap64(x: int): (r: int)
    ensures InLong(r)
    ensures InLong(x) ==> r == x
    ensures (r - x) % TwoTo64 == 0
  {
    (x - MinLong) % TwoTo64 + MinLong
  }

  lemma Wrap64Unique(x: int, y: int)
    requires InLong(y) && (y - x) % TwoTo64 == 0
    ensures Wrap64(x) == y
  {
    var r := Wrap64(x);
    var q1 := (r - x) / TwoTo64;
    var q2 := (y - x) / TwoTo64;
    assert r - x == q1 * TwoTo64;
    assert y - x == q2 * TwoTo64;
    assert r - y == (q1 - q2) * TwoTo64;
  }

  /** Adding a multiple of 2^64 does not change the wrapped value. */
  lemma Wrap64Shift(x: int, j: int)
    ensures Wrap64(x + j * TwoTo64) == Wrap64(x)
  {
    var w := Wrap64(x);
    var q := (w - x) / TwoTo64;
    assert w - x == q * TwoTo64;
    assert w - (x + j * TwoTo64) == (q - j) * TwoTo64;
    Wrap64Unique(x + j * TwoTo64, w);
  }

  /** Wrapping after each of several multiplications gives the same `Long`
      as wrapping the exact product once. */
  lemma Wrap64Mul(a: int, b: int)
    ensures Wrap64(Wrap64(a) * b) == Wrap64(a * b)
  {
    var w := Wrap64(a);
    var k := (w - a) / TwoTo64;
    assert w == a + k * TwoTo64;
    assert w * b == a * b + (k * b) * TwoTo64 by {
      assert w * b == (a + k * TwoTo64) * b;
    }
    Wrap64Shift(a * b, k * b);
  }
}
