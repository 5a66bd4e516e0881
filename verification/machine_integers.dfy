/** The 64-bit integers of the program: results are taken modulo 2^64. */
module MachineIntegers {

  const TWO64: int := 0x1_0000_0000_0000_0000
  const MAX_INT64: int := TWO64 / 2 - 1
  const MIN_INT64: int := -TWO64 / 2

  predicate InInt64(n: int) {
    MIN_INT64 <= n <= MAX_INT64
  }

  /** What a uint64 and an int64 hold when the exact result is `n`. */
  function WrapU(n: int): nat {
    n % TWO64
  }

  function WrapI(n: int): int {
    (n + TWO64 / 2) % TWO64 - TWO64 / 2
  }

  lemma WrapUAdds(a: int, b: int)
    ensures WrapU(WrapU(a) + b) == WrapU(a + b)
  {
    var q := a / TWO64;
    assert a + b == (WrapU(a) + b) + q * TWO64;
    ModShift(WrapU(a) + b, q);
  }

  lemma ModShift(n: int, q: int)
    ensures (n + q * TWO64) % TWO64 == n % TWO64
  {
    var d, r := n / TWO64, n % TWO64;
    assert n + q * TWO64 == (d + q) * TWO64 + r;
  }

  lemma WrapIAdds(a: int, b: int)
    ensures WrapI(WrapI(a) + b) == WrapI(a + b)
  {
    var half := TWO64 / 2;
    var q := (a + half) / TWO64;
    assert a + b + half == (WrapI(a) + b + half) + q * TWO64;
    ModShift(WrapI(a) + b + half, q);
  }
}
