/** Java `int` arithmetic: 32-bit two's complement with silent wrap-around. */
module Int32 {

  const Min: int := -0x8000_0000
  const Max: int := 0x7fff_ffff
  const Modulus: int := 0x1_0000_0000

  predicate InRange(x: int) {
    Min <= x <= Max
  }

  /** The `int` that Java stores for the mathematical value `x`. */
  function Wrap(x: int): (r: int)
    ensures InRange(r)
    ensures (x - r) % Modulus == 0
    ensures InRange(x) ==> r == x
  {
    (x - Min) % Modulus + Min
  }

  /** Values that differ by a multiple of 2^32 are stored as the same `int`. */
  lemma WrapCongruent(a: int, b: int)
    requires (a - b) % Modulus == 0
    ensures Wrap(a) == Wrap(b)
  {

  }

  /** `x += b` after an earlier wrap is the same as one wrap of the exact sum. */
  lemma WrapAdd(a: int, b: int)
    ensures Wrap(Wrap(a) + b) == Wrap(a + b)
  {

  }

  /** `x *= k` after an earlier wrap is the same as one wrap of the exact product. */
  lemma WrapMul(a: int, k: int)
    ensures Wrap(Wrap(a) * k) == Wrap(a * k)
  {
    var ra := Wrap(a);
    var q := (a - ra) / Modulus;
    assert a - ra == q * Modulus;
    assert a * k - ra * k == (q * k) * Modulus by {
      assert a * k - ra * k == (a - ra) * k;
    }
    WrapCongruent(a * k, ra * k);
  }
}
