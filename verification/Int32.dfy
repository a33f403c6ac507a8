/** Signed 32-bit counters, and what adding a 64-bit size to one does. */
module Int32 {

  const MODULUS: int := 0x1_0000_0000
  const SIZES: int := 0x1_0000_0000_0000_0000

  predicate Fits(x: int) { -0x8000_0000 <= x < 0x8000_0000 }

  /** The 32-bit number with the low bits of `x`. */
  function Wrap(x: int): (r: int)
    ensures Fits(r)
    ensures Fits(x) ==> r == x
    ensures (x - r) % MODULUS == 0
  {
    (x + 0x8000_0000) % MODULUS - 0x8000_0000
  }

  /** A signed difference as an unsigned 64-bit size. */
  function AsSize(x: int): (r: int)
    ensures 0 <= r < SIZES
    ensures (x - r) % SIZES == 0
  {
    x % SIZES
  }

  lemma {:induction false} WrapShifted(x: int, k: int)
    ensures Wrap(x + k * MODULUS) == Wrap(x)
  {
    assert (x + k * MODULUS + 0x8000_0000) % MODULUS == (x + 0x8000_0000) % MODULUS;
  }

  /** Atomic addition of a size to a counter. */
  function FetchAndAdd(counter: int, size: int): int
  {
    Wrap(counter + Wrap(size))
  }

  /** However often a counter has wrapped around, adding a difference keeps it right. */
  lemma {:induction false} AddDifference(truth: int, difference: int)
    ensures FetchAndAdd(Wrap(truth), AsSize(difference)) == Wrap(truth + difference)
  {
    var size := AsSize(difference);
    var i, j, k := (truth - Wrap(truth)) / MODULUS, (size - Wrap(size)) / MODULUS, (difference - size) / SIZES;
    assert truth - Wrap(truth) == i * MODULUS;
    assert size - Wrap(size) == j * MODULUS;
    assert difference - size == k * SIZES;
    var n := i + j + k * MODULUS;
    assert truth + difference == Wrap(truth) + Wrap(size) + n * MODULUS;
    WrapShifted(Wrap(truth) + Wrap(size), n);
  }

  /** Two true values show up as the same counter exactly when they differ by a multiple of
      the counter's range. */
  lemma {:induction false} SameCounter(a: int, b: int)
    ensures Wrap(a) == Wrap(b) <==> (a - b) % MODULUS == 0
  {
    var i, j := (a - Wrap(a)) / MODULUS, (b - Wrap(b)) / MODULUS;
    assert a == Wrap(a) + i * MODULUS && b == Wrap(b) + j * MODULUS;
    if (a - b) % MODULUS == 0 {
      var k := (a - b) / MODULUS;
      assert a == b + k * MODULUS;
      WrapShifted(b, k);
    }
    if Wrap(a) == Wrap(b) {
      assert a - b == (i - j) * MODULUS;
    }
  }
}
