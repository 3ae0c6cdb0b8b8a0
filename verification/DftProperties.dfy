/** Properties of the discrete Fourier transform over an arbitrary commutative semiring. */
module DftProperties {
  import opened FftTheorem
  import opened Grids
  import opened Rings

  ghost function Every<C>(x: nat -> C, start: nat): nat -> C {
    (j: nat) => x(2 * j + start)
  }

  /** Splitting a transform by the parity of the sample index. */
  lemma DftSplits<C(!new)>(o: Ops<C>, root: (nat, nat) -> C, m: nat, x: nat -> C, k: nat)
    requires Semiring(o) && RootsOfUnity(o, root) && m > 0
    ensures Dft(o, root, 2 * m, x, k)
         == o.add(Dft(o, root, m, Every(x, 0), k), o.mul(Dft(o, root, m, Every(x, 1), k), root(k, 2 * m)))
  {
    hide Area;
    var term := (j: nat) => o.mul(x(j), root(Area(j, k), 2 * m));
    SumBlocks(o, 2, m, term);
    var pair := (t: nat) => Sum(o, 2, (g: nat) => term(g + t * 2));
    var even := (j: nat) => o.mul(Every(x, 0)(j), root(Area(j, k), m));
    var odd := (j: nat) => o.mul(Every(x, 1)(j), root(Area(j, k), m));
    var w := root(k, 2 * m);
    var turned := (j: nat) => o.mul(odd(j), w);
    forall t: nat ensures pair(t) == o.add(even(t), turned(t)) {
      var both := (g: nat) => term(g + t * 2);
      SumOfTwo(o, both);
      SplitTerm(o, root, m, x, k, t);
    }
    SumCongruent(o, m, pair, (t: nat) => o.add(even(t), turned(t)));
    SumAdds(o, m, even, turned);
    SumScales(o, m, w, odd);
  }

  lemma SumOfTwo<C(!new)>(o: Ops<C>, f: nat -> C)
    requires Semiring(o)
    ensures Sum(o, 2, f) == o.add(f(0), f(1))
  {
    assert Sum(o, 1, f) == o.add(Sum(o, 0, f), f(0));
    assert Laws(o, f(0), f(0), f(0));
  }

  lemma SplitTerm<C(!new)>(o: Ops<C>, root: (nat, nat) -> C, m: nat, x: nat -> C, k: nat, t: nat)
    requires Semiring(o) && RootsOfUnity(o, root) && m > 0
    ensures o.mul(x(0 + t * 2), root(Area(0 + t * 2, k), 2 * m)) == o.mul(Every(x, 0)(t), root(Area(t, k), m))
    ensures o.mul(x(1 + t * 2), root(Area(1 + t * 2, k), 2 * m))
         == o.mul(o.mul(Every(x, 1)(t), root(Area(t, k), m)), root(k, 2 * m))
  {
    OddArea(t, k);
    hide Area;
    assert RootLaw(o, root, Area(t, k), 0, m, 2);
    assert RootLaw(o, root, 2 * Area(t, k), k, 2 * m, 1);
    assert Laws(o, x(2 * t + 1), root(Area(t, k), m), root(k, 2 * m));
  }

  lemma OddArea(t: nat, k: nat)
    ensures Area(0 + t * 2, k) == 2 * Area(t, k) && Area(1 + t * 2, k) == 2 * Area(t, k) + k
  {
  }

  /** Transforming `x(2j) + x(2j+1) * i` carries both half-length transforms at once. */
  lemma DftPacked<C(!new)>(o: Ops<C>, root: (nat, nat) -> C, m: nat, x: nat -> C, i: C, z: nat -> C, k: nat)
    requires Semiring(o)
    requires forall j: nat :: j < m ==> z(j) == o.add(Every(x, 0)(j), o.mul(Every(x, 1)(j), i))
    ensures Dft(o, root, m, z, k) == o.add(Dft(o, root, m, Every(x, 0), k), o.mul(Dft(o, root, m, Every(x, 1), k), i))
  {
    hide Area;
    var term := (j: nat) => o.mul(z(j), root(Area(j, k), m));
    var even := (j: nat) => o.mul(Every(x, 0)(j), root(Area(j, k), m));
    var odd := (j: nat) => o.mul(Every(x, 1)(j), root(Area(j, k), m));
    var turned := (j: nat) => o.mul(odd(j), i);
    forall j: nat | j < m ensures term(j) == o.add(even(j), turned(j)) {
      var a, b, w := Every(x, 0)(j), Every(x, 1)(j), root(Area(j, k), m);
      assert Laws(o, w, a, o.mul(b, i)) && Laws(o, o.add(a, o.mul(b, i)), w, w) && Laws(o, a, w, w);
      assert Laws(o, o.mul(b, i), w, w) && Laws(o, b, i, w) && Laws(o, i, w, w) && Laws(o, b, w, i);
    }
    SumCongruent(o, m, term, (j: nat) => o.add(even(j), turned(j)));
    SumAdds(o, m, even, turned);
    SumScales(o, m, i, odd);
  }

  lemma DftPeriodic<C(!new)>(o: Ops<C>, root: (nat, nat) -> C, m: nat, x: nat -> C)
    requires Semiring(o) && RootsOfUnity(o, root) && m > 0
    ensures Dft(o, root, m, x, m) == Dft(o, root, m, x, 0)
  {
    forall j: nat ensures root(Area(j, m), m) == root(Area(j, 0), m) {
      assert Area(j, m) == Area(m, j) && Area(j, 0) == 0;
      RootOfMultiple(o, root, m, j);
      assert RootLaw(o, root, 0, 0, m, 1);
    }
    SumCongruent(o, m, (j: nat) => o.mul(x(j), root(Area(j, m), m)), (j: nat) => o.mul(x(j), root(Area(j, 0), m)));
  }

  // ---- Conjugation ------------------------------------------------------------------

  ghost predicate ConjLaw<C>(o: Ops<C>, conj: C -> C, x: C, y: C) {
    conj(o.add(x, y)) == o.add(conj(x), conj(y)) && conj(o.mul(x, y)) == o.mul(conj(x), conj(y))
      && conj(o.zero) == o.zero
  }

  /** `conj` preserves sums and products. */
  ghost predicate Homomorphic<C(!new)>(o: Ops<C>, conj: C -> C) {
    forall x, y :: ConjLaw(o, conj, x, y)
  }

  ghost predicate Inverse<C>(o: Ops<C>, conj: C -> C, w: C) {
    o.mul(w, conj(w)) == o.one
  }

  /** Conjugation turns a root of unity into its inverse. */
  ghost predicate UnitModulus<C(!new)>(o: Ops<C>, conj: C -> C, root: (nat, nat) -> C) {
    forall i: nat, n: nat :: n > 0 ==> Inverse(o, conj, root(i, n))
  }

  lemma {:induction false} ConjSum<C(!new)>(o: Ops<C>, conj: C -> C, n: nat, f: nat -> C)
    requires Homomorphic(o, conj)
    ensures conj(Sum(o, n, f)) == Sum(o, n, (i: nat) => conj(f(i)))
  {
    if n == 0 {
      assert ConjLaw(o, conj, o.zero, o.zero);
    } else {
      ConjSum(o, conj, n - 1, f);
      assert ConjLaw(o, conj, Sum(o, n - 1, f), f(n - 1));
    }
  }

  lemma ConjRoot<C(!new)>(o: Ops<C>, conj: C -> C, root: (nat, nat) -> C, a: nat, b: nat, n: nat, q: nat)
    requires Semiring(o) && RootsOfUnity(o, root) && UnitModulus(o, conj, root)
    requires n > 0 && a + b == Area(n, q)
    ensures conj(root(a, n)) == root(b, n)
  {
    RootOfMultiple(o, root, n, q);
    assert RootLaw(o, root, a, b, n, 1);
    var w, c, v := root(a, n), conj(root(a, n)), root(b, n);
    assert Inverse(o, conj, w);
    assert Laws(o, c, w, v) && Laws(o, w, c, c) && Laws(o, v, o.one, o.one) && Laws(o, c, o.one, o.one);
  }

  /** The transform of a self-conjugate signal is conjugate-symmetric. */
  lemma DftOfReal<C(!new)>(o: Ops<C>, conj: C -> C, root: (nat, nat) -> C, m: nat, x: nat -> C, k: nat, k': nat, q: nat)
    requires Semiring(o) && RootsOfUnity(o, root) && Homomorphic(o, conj) && UnitModulus(o, conj, root) && m > 0
    requires forall j: nat :: conj(x(j)) == x(j)
    requires k + k' == Area(m, q)
    ensures conj(Dft(o, root, m, x, k')) == Dft(o, root, m, x, k)
  {
    var term := (j: nat) => o.mul(x(j), root(Area(j, k'), m));
    ConjSum(o, conj, m, term);
    forall j: nat ensures conj(term(j)) == o.mul(x(j), root(Area(j, k), m)) {
      assert ConjLaw(o, conj, x(j), root(Area(j, k'), m));
      Mirrored(j, k, k', m, q);
      ConjRoot(o, conj, root, Area(j, k'), Area(j, k), m, Area(j, q));
    }
    SumCongruent(o, m, (j: nat) => conj(term(j)), (j: nat) => o.mul(x(j), root(Area(j, k), m)));
  }

  lemma Mirrored(j: nat, k: nat, k': nat, m: nat, q: nat)
    requires k + k' == Area(m, q)
    ensures Area(j, k') + Area(j, k) == Area(m, Area(j, q))
  {
    assert j * k' + j * k == j * (m * q) == m * (j * q);
  }
}
