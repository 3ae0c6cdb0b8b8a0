/** Facts about Euclidean division that the solver does not find unaided. */
module Division {

  lemma Unique(d: int, q: int, r: int, q': int, r': int)
    requires 0 <= r < d && 0 <= r' < d
    requires d * q + r == d * q' + r'
    ensures q == q' && r == r'
  {
    assert d * (q - q') == r' - r;
    assert q - q' >= 1 ==> d * (q - q') >= d;
    assert q - q' <= -1 ==> d * (q - q') <= -d;
  }

  lemma QuotientRemainder(d: int, q: int, r: int)
    requires 0 <= r < d
    ensures (d * q + r) / d == q && (d * q + r) % d == r
  {
    var n := d * q + r;
    assert n == d * (n / d) + n % d;
    Unique(d, n / d, n % d, q, r);
  }

  /** Euclidean division by a positive number is the floor of the quotient. */
  lemma Floor(n: int, d: int)
    requires d > 0
    ensures d * (n / d) <= n < d * (n / d) + d
  {
  }

  lemma FloorAtLeast(n: int, d: int, q: int)
    requires d > 0
    ensures n / d >= q <==> n >= d * q
  {
    Floor(n, d);
    assert n / d >= q ==> d * (n / d) >= d * q;
    assert n / d <= q - 1 ==> d * (n / d) <= d * (q - 1) == d * q - d;
  }

  lemma Antitone(n: int, c: int, d: int)
    requires 0 < c <= d && 0 <= n
    ensures 0 <= n / d <= n / c
  {
    Floor(n, d);
    assert c * (n / d) <= d * (n / d) by { FloorAtLeast(n, d, 0); }
    FloorAtLeast(n, c, n / d);
  }
}
