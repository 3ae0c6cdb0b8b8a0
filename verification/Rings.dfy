/** Finite sums over an arbitrary commutative semiring, the exact arithmetic in which
    the transforms of the audio crate are stated. */
module Rings {

  /** The operations a transform performs on its samples.  No law is attached here, so
      a result stated over `Ops` alone holds for floating-point operations too. */
  datatype Ops<!C> = Ops(zero: C, one: C, add: (C, C) -> C, mul: (C, C) -> C)

  /** The semiring laws for one triple of elements.  Laws are asserted triple by triple,
      which keeps the solver from exploring associativity and commutativity freely. */
  ghost predicate Laws<C>(o: Ops<C>, a: C, b: C, c: C) {
    && o.add(o.add(a, b), c) == o.add(a, o.add(b, c))
    && o.add(a, b) == o.add(b, a)
    && o.add(o.zero, a) == a
    && o.mul(o.mul(a, b), c) == o.mul(a, o.mul(b, c))
    && o.mul(a, b) == o.mul(b, a)
    && o.mul(o.one, a) == a
    && o.mul(o.zero, a) == o.zero
    && o.mul(a, o.add(b, c)) == o.add(o.mul(a, b), o.mul(a, c))
  }

  ghost predicate Semiring<C(!new)>(o: Ops<C>) {
    forall a, b, c :: Laws(o, a, b, c)
  }

  function Sum<C>(o: Ops<C>, n: nat, f: nat -> C): C {
    if n == 0 then o.zero else o.add(Sum(o, n - 1, f), f(n - 1))
  }

  lemma {:induction false} SumCongruent<C>(o: Ops<C>, n: nat, f: nat -> C, g: nat -> C)
    requires forall i: nat :: i < n ==> f(i) == g(i)
    ensures Sum(o, n, f) == Sum(o, n, g)
  {
    if n > 0 {
      SumCongruent(o, n - 1, f, g);
    }
  }

  lemma {:induction false} SumOfZeros<C(!new)>(o: Ops<C>, n: nat, f: nat -> C)
    requires Semiring(o)
    requires forall i: nat :: i < n ==> f(i) == o.zero
    ensures Sum(o, n, f) == o.zero
  {
    if n > 0 {
      SumOfZeros(o, n - 1, f);
      assert Laws(o, o.zero, o.zero, o.zero);
    }
  }

  lemma {:induction false} SumAdds<C(!new)>(o: Ops<C>, n: nat, f: nat -> C, g: nat -> C)
    requires Semiring(o)
    ensures Sum(o, n, (i: nat) => o.add(f(i), g(i))) == o.add(Sum(o, n, f), Sum(o, n, g))
  {
    var h := (i: nat) => o.add(f(i), g(i));
    if n == 0 {
      assert Laws(o, o.zero, o.zero, o.zero);
    } else {
      SumAdds(o, n - 1, f, g);
      Interchange(o, Sum(o, n - 1, f), Sum(o, n - 1, g), f(n - 1), g(n - 1));
      assert h(n - 1) == o.add(f(n - 1), g(n - 1));
    }
  }

  lemma Interchange<C(!new)>(o: Ops<C>, a: C, b: C, c: C, d: C)
    requires Semiring(o)
    ensures o.add(o.add(a, b), o.add(c, d)) == o.add(o.add(a, c), o.add(b, d))
  {
    assert Laws(o, a, b, o.add(c, d));
    assert Laws(o, b, c, d);
    assert Laws(o, c, b, d);
    assert Laws(o, a, c, o.add(b, d));
  }

  lemma {:induction false} SumScales<C(!new)>(o: Ops<C>, n: nat, c: C, f: nat -> C)
    requires Semiring(o)
    ensures Sum(o, n, (i: nat) => o.mul(f(i), c)) == o.mul(Sum(o, n, f), c)
  {
    var h := (i: nat) => o.mul(f(i), c);
    if n == 0 {
      assert Laws(o, c, c, c);
    } else {
      SumScales(o, n - 1, c, f);
      assert h(n - 1) == o.mul(f(n - 1), c);
      assert Laws(o, c, Sum(o, n - 1, f), f(n - 1));
      assert Laws(o, Sum(o, n - 1, f), c, c) && Laws(o, f(n - 1), c, c);
      assert Laws(o, o.add(Sum(o, n - 1, f), f(n - 1)), c, c);
    }
  }

  /** The order of a double sum is immaterial. */
  lemma {:induction false} SumSwaps<C(!new)>(o: Ops<C>, n: nat, m: nat, f: (nat, nat) -> C)
    requires Semiring(o)
    ensures Sum(o, n, (i: nat) => Sum(o, m, (j: nat) => f(i, j)))
         == Sum(o, m, (j: nat) => Sum(o, n, (i: nat) => f(i, j)))
  {
    var rows := (i: nat) => Sum(o, m, (j: nat) => f(i, j));
    var columns := (j: nat) => Sum(o, n, (i: nat) => f(i, j));
    if n == 0 {
      SumOfZeros(o, m, columns);
    } else {
      SumSwaps(o, n - 1, m, f);
      var shorter := (j: nat) => Sum(o, n - 1, (i: nat) => f(i, j));
      var last := (j: nat) => f(n - 1, j);
      SumAdds(o, m, shorter, last);
      forall j: nat | j < m ensures columns(j) == o.add(shorter(j), last(j)) {
        var column := (i: nat) => f(i, j);
        assert Sum(o, n, column) == o.add(Sum(o, n - 1, column), column(n - 1));
      }
      SumCongruent(o, m, columns, (j: nat) => o.add(shorter(j), last(j)));
      assert rows(n - 1) == Sum(o, m, last);
    }
  }

  lemma {:induction false} SumAppends<C(!new)>(o: Ops<C>, n: nat, m: nat, f: nat -> C)
    requires Semiring(o)
    ensures Sum(o, n + m, f) == o.add(Sum(o, n, f), Sum(o, m, (i: nat) => f(n + i)))
  {
    var tail := (i: nat) => f(n + i);
    if m == 0 {
      assert Laws(o, Sum(o, n, f), o.zero, o.zero);
      assert Laws(o, o.zero, Sum(o, n, f), o.zero);
    } else {
      SumAppends(o, n, m - 1, f);
      assert tail(m - 1) == f(n + m - 1);
      assert Laws(o, Sum(o, n, f), Sum(o, m - 1, tail), f(n + m - 1));
    }
  }

  /** A sum over `g * r` indices is a double sum over `j = group + t * g`. */
  lemma {:induction false} SumBlocks<C(!new)>(o: Ops<C>, g: nat, r: nat, f: nat -> C)
    requires Semiring(o)
    ensures Sum(o, g * r, f) == Sum(o, r, (t: nat) => Sum(o, g, (group: nat) => f(group + t * g)))
  {
    var blocks := (t: nat) => Sum(o, g, (group: nat) => f(group + t * g));
    if r == 0 {
    } else {
      SumBlocks(o, g, r - 1, f);
      assert g * r == g * (r - 1) + g;
      SumAppends(o, g * (r - 1), g, f);
      SumCongruent(o, g, (i: nat) => f(g * (r - 1) + i), (group: nat) => f(group + (r - 1) * g));
      assert blocks(r - 1) == Sum(o, g, (group: nat) => f(group + (r - 1) * g));
    }
  }
}
