/** Multiples of powers of two, the only products floating-point rounding needs. */
module Powers {
  import Division

  function Pow2(n: nat): (p: nat)
    ensures p > 0
  {
    if n == 0 then 1 else 2 * Pow2(n - 1)
  }

  /** `q * 2^n`; proofs hide the definition and use the laws below. */
  function Scaled(q: nat, n: nat): nat {
    q * Pow2(n)
  }

  lemma {:induction false} ScaledTwice(q: nat, a: nat, b: nat)
    ensures Scaled(Scaled(q, a), b) == Scaled(q, a + b)
  {
    if b > 0 {
      ScaledTwice(q, a, b - 1);
      ScaledDouble(Scaled(q, a), b - 1);
      ScaledDouble(q, a + b - 1);
    }
  }

  lemma ScaledDouble(q: nat, n: nat)
    ensures Scaled(q, n + 1) == 2 * Scaled(q, n) == Scaled(2 * q, n)
  {
  }

  lemma ScaledSum(q: nat, r: nat, n: nat)
    ensures Scaled(q + r, n) == Scaled(q, n) + Scaled(r, n)
  {
  }

  lemma ScaledMonotone(q: nat, r: nat, n: nat)
    ensures q <= r <==> Scaled(q, n) <= Scaled(r, n)
    ensures q < r <==> Scaled(q, n) < Scaled(r, n)
  {
    assert q <= r ==> q * Pow2(n) <= r * Pow2(n);
    assert r + 1 <= q ==> (r + 1) * Pow2(n) <= q * Pow2(n);
    assert q + 1 <= r ==> (q + 1) * Pow2(n) <= r * Pow2(n);
  }

  lemma ScaledUnits(q: nat, n: nat)
    ensures Scaled(q, 0) == q && Scaled(0, n) == 0 && Scaled(1, n) == Pow2(n) >= 1 && Scaled(q, n) >= q
  {
    assert q * Pow2(n) >= q * 1;
  }

  lemma {:induction false} Pow2Monotone(a: nat, b: nat)
    requires a <= b
    ensures Pow2(a) <= Pow2(b)
  {
    if a < b {
      Pow2Monotone(a, b - 1);
    }
  }

  /** A logical right shift. */
  function ShiftRight(v: nat, n: nat): (q: nat)
    ensures Scaled(q, n) <= v < Scaled(q + 1, n)
  {
    Division.FloorAtLeast(v, Pow2(n), 0);
    Division.Floor(v, Pow2(n));
    var q := v / Pow2(n);
    assert (q + 1) * Pow2(n) == q * Pow2(n) + Pow2(n);
    q
  }

  /** The position of the leading bit. */
  function FloorLog2(v: nat): (k: nat)
    requires v > 0
    ensures Pow2(k) <= v < Pow2(k + 1)
  {
    if v == 1 then 0 else FloorLog2(v / 2) + 1
  }

  lemma Pow2Adds(a: nat, b: nat)
    ensures Pow2(a + b) == Pow2(a) * Pow2(b)
  {
    ScaledTwice(1, a, b);
  }

  lemma Pow2Known()
    ensures Pow2(23) == 0x80_0000 && Pow2(24) == 0x100_0000
    ensures Pow2(52) == 0x10_0000_0000_0000 && Pow2(53) == 0x20_0000_0000_0000
    ensures Pow2(63) == 0x8000_0000_0000_0000 && Pow2(64) == 0x1_0000_0000_0000_0000
  {
    assert Pow2(12) == 0x1000;
    Pow2Adds(12, 11); Pow2Adds(12, 12);
    Pow2Adds(24, 24); Pow2Adds(48, 4); Pow2Adds(52, 1); Pow2Adds(52, 11); Pow2Adds(63, 1);
  }
}
