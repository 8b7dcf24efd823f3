/** Shifts and powers of two, as the accumulators use them on leaf indices and leaf counts. */
module Numbers {

  const U32_MAX: nat := 0xFFFF_FFFF

  type u32 = n: nat | n <= U32_MAX

  type u8 = n: nat | n < 256

  function Min(a: int, b: int): int {
    if a <= b then a else b
  }

  function Max(a: int, b: int): int {
    if a <= b then b else a
  }

  function Pow2(n: nat): (p: nat)
    ensures p >= 1
  {
    if n == 0 then 1 else 2 * Pow2(n - 1)
  }

  /** `n >> i` */
  function Shr(n: nat, i: nat): nat {
    if i == 0 then n else Shr(n, i - 1) / 2
  }

  /** `(n >> i) & 1` */
  function Bit(n: nat, i: nat): (b: nat)
    ensures b <= 1
  {
    Shr(n, i) % 2
  }

  /** The number that the lowest `i` bits of `n` spell. */
  function Low(n: nat, i: nat): (r: nat)
    ensures r < Pow2(i)
  {
    if i == 0 then 0 else Low(n, i - 1) + (if Bit(n, i - 1) == 1 then Pow2(i - 1) else 0)
  }

  /** `n` with its lowest `i` bits cleared. */
  function Floor(n: nat, i: nat): int {
    n - Low(n, i)
  }

  lemma ProductAtLeast(q: int, p: int)
    requires p >= 0 && q >= 0
    ensures q * p >= 0
    ensures q >= 1 ==> q * p >= p
  {
  }

  lemma Regroup(q: nat, b: nat, p: nat)
    ensures (2 * q + b) * p - b * p == q * (2 * p)
  {
  }

  lemma {:induction false} FloorIsMultiple(n: nat, i: nat)
    ensures Floor(n, i) == Shr(n, i) * Pow2(i)
  {
    if i > 0 {
      FloorIsMultiple(n, i - 1);
      assert (if Bit(n, i - 1) == 1 then Pow2(i - 1) else 0) == Bit(n, i - 1) * Pow2(i - 1);
      Regroup(Shr(n, i), Bit(n, i - 1), Pow2(i - 1));
      assert Shr(n, i - 1) == 2 * Shr(n, i) + Bit(n, i - 1);
    }
  }

  /** The shift by `i` is division by two to the `i`: quotient `Shr`, remainder `Low`. */
  lemma DivMod(n: nat, i: nat)
    ensures n == Shr(n, i) * Pow2(i) + Low(n, i)
    ensures Low(n, i) <= n
  {
    FloorIsMultiple(n, i);
    ProductAtLeast(Shr(n, i), Pow2(i));
  }

  lemma SmallNumbers(n: nat, i: nat)
    requires n < Pow2(i)
    ensures Shr(n, i) == 0 && Low(n, i) == n
  {
    DivMod(n, i);
    if Shr(n, i) >= 1 {
      ProductAtLeast(Shr(n, i), Pow2(i));
    }
  }

  /** Two numbers that agree above bit `i` agree on every higher bit and boundary. */
  lemma {:induction false} AgreeAbove(m: nat, n: nat, i: nat, j: nat)
    requires i <= j && Shr(m, i) == Shr(n, i)
    ensures Shr(m, j) == Shr(n, j) && Floor(m, j) == Floor(n, j)
  {
    if i == j {
      FloorIsMultiple(m, i);
      FloorIsMultiple(n, i);
    } else {
      AgreeAbove(m, n, i, j - 1);
    }
  }

  lemma Pow2Of32()
    ensures Pow2(32) == U32_MAX + 1
  {
    assert Pow2(8) == 0x100;
    assert Pow2(16) == 0x1_0000;
    assert Pow2(24) == 0x100_0000;
  }
}
