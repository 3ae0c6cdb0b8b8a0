/** Rate ratios in lowest terms. */
module Rates {
  import Division
  import opened Factors
  import opened Results

  const MAX_REDUCED_RATE_FACTOR: nat := 1000

  // ---- Rate pairs -------------------------------------------------------------------

  datatype RatePair = RatePair(numerator: nat, denominator: nat) {
    predicate IsIdentity() { numerator == 1 && denominator == 1 }
    predicate Valid() { numerator > 0 && denominator > 0 }
  }

  datatype RateError = FactorTooLarge(numerator: nat, denominator: nat)

  ghost predicate CommonDivisor(d: int, a: int, b: int) {
    d > 0 && Divides(d, a) && Divides(d, b)
  }

  ghost predicate Coprime(a: int, b: int) {
    forall d: int :: CommonDivisor(d, a, b) ==> d == 1
  }

  lemma DividesSum(d: int, a: int, b: int, k: int)
    requires d > 0 && Divides(d, b)
    ensures Divides(d, a + k * b) <==> Divides(d, a)
  {
    var q := b / d;
    assert b == d * q;
    assert k * b == d * (k * q);
    ShiftByMultiple(d, a, k * q);
  }

  lemma ShiftByMultiple(d: int, a: int, k: int)
    requires d > 0
    ensures (a + d * k) % d == a % d
  {
    assert a + d * k == d * (a / d + k) + a % d by { assert d * (a / d + k) == d * (a / d) + d * k; }
    Division.QuotientRemainder(d, a / d + k, a % d);
  }

  lemma EuclidStep(a: int, b: int)
    requires b > 0
    ensures forall d: int :: CommonDivisor(d, a, b) <==> CommonDivisor(d, b, a % b)
  {
    forall d: int ensures CommonDivisor(d, a, b) <==> CommonDivisor(d, b, a % b) {
      if d > 0 && Divides(d, b) {
        assert a == a % b + (a / b) * b;
        DividesSum(d, a % b, b, a / b);
      }
    }
  }

  /** Euclid's algorithm: the common divisors are exactly the divisors of the answer. */
  method Gcd(a: nat, b: nat) returns (g: nat)
    requires a > 0 && b > 0
    ensures g > 0 && forall d: int :: d > 0 ==> (CommonDivisor(d, a, b) <==> Divides(d, g))
  {
    hide Divides, CommonDivisor;
    var left, right := a, b;
    while right != 0
      invariant left > 0
      invariant forall d: int :: CommonDivisor(d, a, b) <==> CommonDivisor(d, left, right)
      decreases right
    {
      EuclidStep(left, right);
      left, right := right, left % right;
    }
    g := left;
    DivisorsOfZero(left);
  }

  lemma DivisorsOfZero(n: int)
    ensures forall d: int :: d > 0 ==> (CommonDivisor(d, n, 0) <==> Divides(d, n))
  {
  }

  lemma CofactorsCoprime(a: int, b: int, g: int)
    requires g > 0 && CommonDivisor(g, a, b)
    requires forall d: int :: d > 0 ==> (CommonDivisor(d, a, b) <==> Divides(d, g))
    ensures Coprime(a / g, b / g)
  {
    forall d: int | CommonDivisor(d, a / g, b / g) ensures d == 1 {
      ScaledDivisor(d, a, g);
      ScaledDivisor(d, b, g);
      var m := d * g;
      assert CommonDivisor(m, a, b);
      NotLarger(d, g);
    }
  }

  lemma NotLarger(d: int, g: int)
    requires d > 0 && g > 0 && d * g > 0 && Divides(d * g, g)
    ensures d == 1
  {
    var m := d * g;
    Division.Floor(g, m);
    assert g / m >= 1 ==> m * (g / m) >= m;
    assert d >= 2 ==> m >= 2 * g;
  }

  lemma ScaledDivisor(d: int, a: int, g: int)
    requires d > 0 && g > 0 && Divides(g, a) && Divides(d, a / g)
    ensures d * g > 0 && Divides(d * g, a)
  {
    var k := (a / g) / d;
    assert a == g * (d * k) == (d * g) * k;
    assert d * g > 0;
    MultipleDivides(d * g, k);
  }

  /** Reduces a ratio to lowest terms and refuses exactly those with a factor above the bound. */
  method NewRatePair(inputHz: nat, outputHz: nat) returns (r: Result<RatePair, RateError>)
    requires inputHz > 0 && outputHz > 0
    ensures r.Ok? ==> r.value.Valid() && Lowest(r.value.numerator, r.value.denominator, inputHz, outputHz)
    ensures r.Ok? ==> r.value.numerator <= MAX_REDUCED_RATE_FACTOR && r.value.denominator <= MAX_REDUCED_RATE_FACTOR
    ensures r.Err? ==> Lowest(r.error.numerator, r.error.denominator, inputHz, outputHz)
    ensures r.Err? ==> r.error.numerator > MAX_REDUCED_RATE_FACTOR || r.error.denominator > MAX_REDUCED_RATE_FACTOR
  {
    var divisor := Gcd(inputHz, outputHz);
    var numerator, denominator := outputHz / divisor, inputHz / divisor;
    Reduced(inputHz, outputHz, divisor);
    if numerator > MAX_REDUCED_RATE_FACTOR || denominator > MAX_REDUCED_RATE_FACTOR {
      return Err(FactorTooLarge(numerator, denominator));
    }
    r := Ok(RatePair(numerator, denominator));
  }

  ghost predicate Lowest(numerator: nat, denominator: nat, inputHz: nat, outputHz: nat) {
    numerator * inputHz == denominator * outputHz && Coprime(denominator, numerator)
  }

  lemma Reduced(inputHz: nat, outputHz: nat, g: nat)
    requires inputHz > 0 && outputHz > 0 && g > 0
    requires forall d: int :: d > 0 ==> (CommonDivisor(d, inputHz, outputHz) <==> Divides(d, g))
    ensures outputHz / g > 0 && inputHz / g > 0
    ensures Lowest(outputHz / g, inputHz / g, inputHz, outputHz)
  {
    assert Divides(g, g);
    assert CommonDivisor(g, inputHz, outputHz);
    CofactorsCoprime(inputHz, outputHz, g);
    var n, d := outputHz / g, inputHz / g;
    assert n * (g * d) == d * (g * n);
  }
}
