/** The factor search of the FFT planner and the prime-factor facts behind it. */
module Factors {
  import Division

  ghost predicate Divides(d: int, n: int)
    requires d > 0
  {
    n % d == 0
  }

  ghost predicate Prime(p: int) {
    p > 1 && forall d: int :: 1 < d < p ==> !Divides(d, p)
  }

  /** The lengths the kernel supports: no prime factor above 13. */
  ghost predicate Smooth(n: int) {
    forall p: int :: p > 13 && Prime(p) ==> !Divides(p, n)
  }

  /** The least divisor above one of `n`. */
  ghost predicate LeastFactor(n: int, f: int) {
    f > 1 && Divides(f, n) && NoFactorBelow(n, f)
  }

  ghost predicate NoFactorBelow(n: int, f: int) {
    forall d: int :: 1 < d < f ==> !Divides(d, n)
  }

  lemma MultipleDivides(d: int, k: int)
    requires d > 0
    ensures Divides(d, d * k)
  {
    Division.QuotientRemainder(d, k, 0);
  }

  lemma DividesTransitive(d: int, m: int, n: int)
    requires d > 0 && m > 0
    ensures Divides(d, m) && Divides(m, n) ==> Divides(d, n)
  {
    var a, b := m / d, n / m;
    if Divides(d, m) && Divides(m, n) {
      assert n == (d * a) * b == d * (a * b);
      MultipleDivides(d, a * b);
    }
  }

  lemma LeastFactorIsPrime(n: int, f: int)
    requires LeastFactor(n, f)
    ensures Prime(f)
  {
    forall d: int | 1 < d < f ensures !Divides(d, f) {
      DividesTransitive(d, f, n);
    }
  }

  /** Euclid's lemma, by descent on the smaller factor. */
  lemma {:induction false} EuclidSmall(p: int, a: int, b: int)
    requires Prime(p) && 0 < a < p && Divides(p, a * b)
    ensures Divides(p, b)
    decreases a
  {
    if a > 1 {
      assert !Divides(a, p);
      var q, rest, k := p / a, p % a, (a * b) / p;
      assert rest * b == p * (b - q * k) by {
        assert rest == p - q * a;
        assert rest * b == p * b - q * (a * b);
        assert q * (p * k) == p * (q * k);
      }
      MultipleDivides(p, b - q * k);
      EuclidSmall(p, rest, b);
    }
  }

  lemma LargePrimeSurvives(p: int, radix: int, rest: int)
    requires p > 13 && Prime(p) && 1 < radix <= 13
    ensures Divides(p, radix * rest) <==> Divides(p, rest)
  {
    if Divides(p, radix * rest) {
      EuclidSmall(p, radix, rest);
    }
    if Divides(p, rest) {
      var k := rest / p;
      assert radix * rest == p * (radix * k) by {
        assert rest == p * k;
        assert radix * (p * k) == p * (radix * k);
      }
      MultipleDivides(p, radix * k);
    }
  }

  /** Removing a factor of at most 13 keeps exactly the large prime factors. */
  lemma SmoothQuotient(radix: int, rest: int)
    requires 1 < radix <= 13
    ensures Smooth(radix * rest) <==> Smooth(rest)
  {
    forall p: int | p > 13 && Prime(p) ensures Divides(p, radix * rest) <==> Divides(p, rest) {
      LargePrimeSurvives(p, radix, rest);
    }
  }

  lemma EvenFactor(d: int, n: int)
    requires d > 0 && !Divides(2, n)
    ensures Divides(2, d) ==> !Divides(d, n)
  {
    DividesTransitive(2, d, n);
  }

  /** An odd factor that does not divide can be passed together with its even successor. */
  lemma NextFactor(n: int, f: int)
    requires f > 2 && f % 2 == 1 && NoFactorBelow(n, f) && !Divides(f, n)
    ensures NoFactorBelow(n, f + 2)
  {
    EvenFactor(f + 1, n);
  }

  /** What survives the sieve by the primes up to 13 is never small. */
  lemma SmallRemainder(n: int, f: int)
    requires n > 1 && f >= 17 && NoFactorBelow(n, f)
    ensures n <= 16 ==> n <= 13 && Divides(n, n)
  {
    DividesIs(n, n);
  }

  lemma IsLeastFactor(n: int, f: int)
    requires f > 1 && Divides(f, n) && NoFactorBelow(n, f)
    ensures LeastFactor(n, f)
  {
  }

  lemma DividesIs(d: int, n: int)
    requires d > 0
    ensures Divides(d, n) <==> n % d == 0
  {
  }

  /** Sieving by the primes up to 13 leaves no factor below 17. */
  lemma NoFactorBelow17(n: int)
    requires !Divides(2, n) && !Divides(3, n) && !Divides(5, n)
    requires !Divides(7, n) && !Divides(11, n) && !Divides(13, n)
    ensures NoFactorBelow(n, 17)
  {
    forall d: int | 1 < d < 17 ensures !Divides(d, n) {
      DividesTransitive(2, d, n);
      DividesTransitive(3, d, n);
    }
  }

  lemma TrialBound(f: int, n: int)
    requires 2 < f <= n / f
    ensures f + 2 < n
  {
    Division.FloorAtLeast(n, f, f);
    assert 3 * f <= f * f;
  }

  lemma Cofactor(n: int, d: int)
    requires 1 < d < n && Divides(d, n)
    ensures 1 < n / d && Divides(n / d, n)
  {
    var k := n / d;
    assert n == d * k == k * d;
    assert k <= 1 ==> d * k <= d;
    MultipleDivides(k, d);
  }

  /** Past the square root the only divisor left is the number itself. */
  lemma LastFactor(n: int, factor: int)
    requires n > 1 && factor > 1 && factor > n / factor && NoFactorBelow(n, factor)
    ensures LeastFactor(n, n)
  {
    forall d: int | 1 < d < n ensures !Divides(d, n) {
      if factor <= d && Divides(d, n) {
        Cofactor(n, d);
        Division.Antitone(n, factor, d);
      }
    }
  }
}
