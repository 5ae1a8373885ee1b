/** int64 arithmetic. */
module GoInt {
  const TWO63: int := 0x8000_0000_0000_0000

  /** The low 64 bits, read as a signed number. */
  function Wrap64(x: int): int {
    (x + TWO63) % (2 * TWO63) - TWO63
  }

  lemma WrapStep(a: int, b: int)
    ensures Wrap64(Wrap64(a) + b) == Wrap64(a + b)
  {
    var m := 2 * TWO63;
    var q := (a + TWO63) / m;
    assert a + TWO63 == q * m + (a + TWO63) % m;
    assert Wrap64(a) + b == a + b - q * m;
  }

  /** A 64-bit result is exact exactly when it fits. */
  lemma TotalExact(sum: int)
    ensures Wrap64(sum) == sum <==> -0x8000_0000_0000_0000 <= sum < 0x8000_0000_0000_0000
  {
  }
}
