/** The kernel computes the discrete Fourier transform, exactly, over every commutative semiring
    that has the roots of unity the tables are filled with. */
module FftTheorem {
  import Division
  import Factors
  import opened Fft
  import opened FftKernel
  import opened Grids
  import opened Results
  import opened Rings

  /** What `root(i, n)`, standing for `exp(-2 pi i / n)` to the power `i`, is assumed to satisfy. */
  ghost predicate RootLaw<C>(o: Ops<C>, root: (nat, nat) -> C, a: nat, b: nat, n: nat, c: nat)
    requires n > 0 && c > 0
  {
    && root(a + b, n) == o.mul(root(a, n), root(b, n))
    && root(0, n) == o.one && root(n, n) == o.one
    && root(c * a, c * n) == root(a, n)
  }

  ghost predicate RootsOfUnity<C(!new)>(o: Ops<C>, root: (nat, nat) -> C) {
    forall a: nat, b: nat, n: nat, c: nat :: n > 0 && c > 0 ==> RootLaw(o, root, a, b, n, c)
  }

  /** The `k`-th coefficient of the `n`-point discrete Fourier transform. */
  ghost function Dft<C>(o: Ops<C>, root: (nat, nat) -> C, n: nat, x: nat -> C, k: nat): C {
    Sum(o, n, (j: nat) => o.mul(x(j), root(Area(j, k), n)))
  }

  /** A buffer as a signal. */
  ghost function Samples<C>(o: Ops<C>, x: seq<C>): nat -> C {
    (j: nat) => if j < |x| then x[j] else o.zero
  }

  /** The samples `q`, `q + stride`, `q + 2 * stride`, ... of a buffer. */
  ghost function Column<C>(o: Ops<C>, x: seq<C>, q: nat, stride: nat): nat -> C {
    (j: nat) => if Cell(j, q, stride) < |x| then x[Cell(j, q, stride)] else o.zero
  }

  // ---- Roots ------------------------------------------------------------------------

  lemma {:induction false} RootOfMultiple<C(!new)>(o: Ops<C>, root: (nat, nat) -> C, n: nat, q: nat)
    requires Semiring(o) && RootsOfUnity(o, root) && n > 0
    ensures root(Area(n, q), n) == o.one
  {
    assert RootLaw(o, root, 0, 0, n, 1);
    if q > 0 {
      RootOfMultiple(o, root, n, q - 1);
      assert Area(n, q) == Area(n, q - 1) + n;
      assert RootLaw(o, root, Area(n, q - 1), n, n, 1);
      assert Laws(o, o.one, o.one, o.one);
    } else {
      assert Area(n, q) == 0;
    }
  }

  lemma RootPeriodic<C(!new)>(o: Ops<C>, root: (nat, nat) -> C, a: nat, n: nat, q: nat)
    requires Semiring(o) && RootsOfUnity(o, root) && n > 0
    ensures root(a + Area(n, q), n) == root(a, n)
  {
    RootOfMultiple(o, root, n, q);
    assert RootLaw(o, root, Area(n, q), a, n, 1);
    assert a + Area(n, q) == Area(n, q) + a;
    assert Laws(o, root(a, n), o.one, o.one);
  }

  lemma TwiddleIsRoot<C(!new)>(o: Ops<C>, root: (nat, nat) -> C, i: nat, n: nat)
    requires Semiring(o) && RootsOfUnity(o, root) && n > 0
    ensures Twiddle(root, i, n) == root(i, n)
  {
    RootPeriodic(o, root, i % n, n, i / n);
    assert i == i % n + Area(n, i / n) by { Division.Floor(i, n); }
  }

  lemma Exponent(r: nat, g: nat, t: nat, j: nat, p: nat, k: nat)
    ensures Area(Cell(t, j, g), Cell(k, p, r))
      == g * Area(t, p) + Area(j, p) + r * Area(j, k) + Area(Area(r, g), Area(t, k))
  {
    assert (t * g + j) * (k * r + p) == (t * g) * (k * r) + (t * g) * p + j * (k * r) + j * p;
  }

  /** The three roots a term meets on its way multiply to the root of the direct transform. */
  lemma RootsCompose<C(!new)>(o: Ops<C>, root: (nat, nat) -> C, r: nat, g: nat, t: nat, j: nat, p: nat, k: nat)
    requires Semiring(o) && RootsOfUnity(o, root) && r > 0 && g > 0 && Area(r, g) > 0
    ensures o.mul(o.mul(root(Area(t, p), r), root(Area(j, p), Area(r, g))), root(Area(j, k), g))
         == root(Area(Cell(t, j, g), Cell(k, p, r)), Area(r, g))
  {
    var m := Area(r, g);
    assert m == g * r == r * g;
    Exponent(r, g, t, j, p, k);
    hide Area, Cell;
    var a, b, c := g * Area(t, p), Area(j, p), r * Area(j, k);
    assert RootLaw(o, root, Area(t, p), 0, r, g);
    assert RootLaw(o, root, Area(j, k), 0, g, r);
    assert RootLaw(o, root, a, b, m, 1);
    assert RootLaw(o, root, a + b, c, m, 1);
    RootPeriodic(o, root, a + b + c, m, Area(t, k));
  }

  // ---- One stage --------------------------------------------------------------------

  /** The butterfly is a short transform over the lanes `t * groups + group`. */
  lemma {:induction false} ButterflyIsSum<C(!new)>(o: Ops<C>, root: (nat, nat) -> C, st: Stage<C>, x: seq<C>,
                                                   group: nat, offset: nat, output: nat, count: nat)
    requires Semiring(o) && RootsOfUnity(o, root) && StageTables(st, root)
    requires InStage(st, |x|, group, offset, output) && 1 <= count <= st.radix
    ensures Butterfly(o, st, x, group, offset, output, count)
      == Sum(o, count, LaneTerm(o, root, st, x, group, offset, output))
  {
    var term := LaneTerm(o, root, st, x, group, offset, output);
    var t := count - 1;
    SourceInRange(st, |x|, group, offset, t);
    var value := x[SourceIndex(st, group, offset, t)];
    assert term(t) == o.mul(value, root(Area(t, output), st.radix));
    if count == 1 {
      assert Area(0, output) == 0;
      assert RootLaw(o, root, 0, 0, st.radix, 1);
      assert Laws(o, value, o.one, o.one) && Laws(o, o.zero, value, value);
      assert Sum(o, 1, term) == o.add(Sum(o, 0, term), term(0));
      assert Laws(o, value, o.zero, o.zero);
    } else {
      ButterflyIsSum(o, root, st, x, group, offset, output, t);
      TablesInRange(st, |x|, group, offset, t, output);
      CellDecodes(t, output, st.radix);
      TwiddleIsRoot(o, root, Area(t, output), st.radix);
    }
  }

  ghost function LaneTerm<C>(o: Ops<C>, root: (nat, nat) -> C, st: Stage<C>, x: seq<C>,
                             group: nat, offset: nat, output: nat): nat -> C
    requires st.radix > 0
  {
    (t: nat) => o.mul(Column(o, x, offset, st.stride)(Cell(t, group, st.groups)), root(Area(t, output), st.radix))
  }

  /** After one stage, the shorter transform of a new column is the longer transform of an old one. */
  lemma StageTransforms<C(!new)>(o: Ops<C>, root: (nat, nat) -> C, st: Stage<C>, x: seq<C>, q: nat, p: nat, k: nat)
    requires Semiring(o) && RootsOfUnity(o, root) && StageTables(st, root) && StageShape(st, |x|)
    requires q < st.stride && p < st.radix && k < st.groups
    ensures Dft(o, root, st.groups, Column(o, ApplyStage(o, st, x), Cell(p, q, st.stride), Area(st.radix, st.stride)),
                k)
         == Dft(o, root, Area(st.radix, st.groups), Column(o, x, q, st.stride), Cell(k, p, st.radix))
  {
    hide Area, Cell;
    var r, g, s := st.radix, st.groups, st.stride;
    var m, target := Area(r, g), Cell(k, p, r);
    var y := ApplyStage(o, st, x);
    var old_, new_ := Column(o, x, q, s), Column(o, y, Cell(p, q, s), Area(r, s));
    var term := (i: nat) => o.mul(old_(i), root(Area(i, target), m));
    var square := (j: nat, t: nat) => term(Cell(t, j, g));
    var rows := (j: nat) => Sum(o, r, (t: nat) => square(j, t));
    forall j: nat | j < g ensures o.mul(new_(j), root(Area(j, k), g)) == rows(j) {
      StageEntry(o, root, st, x, q, p, k, j);
      SumCongruent(o, r, (t: nat) => square(j, t),
                   (t: nat) => o.mul(old_(Cell(t, j, g)), root(Area(Cell(t, j, g), target), m)));
    }
    SumCongruent(o, g, (j: nat) => o.mul(new_(j), root(Area(j, k), g)), rows);
    SumSwaps(o, g, r, square);
    SumOverCells(o, g, r, term);
    var columns := (t: nat) => Sum(o, g, (j: nat) => square(j, t));
    var blocks := (t: nat) => Sum(o, g, (j: nat) => term(Cell(t, j, g)));
    forall t: nat | t < r ensures columns(t) == blocks(t) {
      SumCongruent(o, g, (j: nat) => square(j, t), (j: nat) => term(Cell(t, j, g)));
    }
    SumCongruent(o, r, columns, blocks);
  }

  lemma SumOverCells<C(!new)>(o: Ops<C>, g: nat, r: nat, f: nat -> C)
    requires Semiring(o)
    ensures Sum(o, Area(r, g), f) == Sum(o, r, (t: nat) => Sum(o, g, (j: nat) => f(Cell(t, j, g))))
  {
    SumBlocks(o, g, r, f);
    var blocks := (t: nat) => Sum(o, g, (j: nat) => f(j + t * g));
    var cells := (t: nat) => Sum(o, g, (j: nat) => f(Cell(t, j, g)));
    forall t: nat ensures blocks(t) == cells(t) {
      var block, cell := (j: nat) => f(j + t * g), (j: nat) => f(Cell(t, j, g));
      forall j: nat ensures block(j) == cell(j) {
        assert j + t * g == Cell(t, j, g);
      }
      SumCongruent(o, g, block, cell);
    }
    SumCongruent(o, r, blocks, cells);
    assert g * r == Area(r, g);
  }

  /** One term of the shorter transform, expanded into the terms of the longer one. */
  lemma StageEntry<C(!new)>(o: Ops<C>, root: (nat, nat) -> C, st: Stage<C>, x: seq<C>, q: nat, p: nat, k: nat, j: nat)
    requires Semiring(o) && RootsOfUnity(o, root) && StageTables(st, root) && StageShape(st, |x|)
    requires q < st.stride && p < st.radix && k < st.groups && j < st.groups
    ensures o.mul(Column(o, ApplyStage(o, st, x), Cell(p, q, st.stride), Area(st.radix, st.stride))(j),
                  root(Area(j, k), st.groups))
         == Sum(o, st.radix, (t: nat) =>
              o.mul(Column(o, x, q, st.stride)(Cell(t, j, st.groups)),
                    root(Area(Cell(t, j, st.groups), Cell(k, p, st.radix)), Area(st.radix, st.groups))))
  {
    var r, g, s := st.radix, st.groups, st.stride;
    var m := Area(r, g);
    StageColumn(o, st, x, q, p, j);
    ButterflyIsSum(o, root, st, x, j, q, p, r);
    var lane := LaneTerm(o, root, st, x, j, q, p);
    TablesInRange(st, |x|, j, q, p, p);
    CellDecodes(j, p, r);
    TwiddleIsRoot(o, root, Area(j, p), m);
    var w1, w2 := root(Area(j, p), m), root(Area(j, k), g);
    SumScales(o, r, w1, lane);
    var scaled := (t: nat) => o.mul(lane(t), w1);
    SumScales(o, r, w2, scaled);
    var goal := (t: nat) => o.mul(Column(o, x, q, s)(Cell(t, j, g)), root(Area(Cell(t, j, g), Cell(k, p, r)), m));
    forall t: nat | t < r ensures o.mul(scaled(t), w2) == goal(t) {
      var value, w0 := Column(o, x, q, s)(Cell(t, j, g)), root(Area(t, p), r);
      RootsCompose(o, root, r, g, t, j, p, k);
      assert Laws(o, value, w0, w1) && Laws(o, value, o.mul(w0, w1), w2);
    }
    SumCongruent(o, r, (t: nat) => o.mul(scaled(t), w2), goal);
  }

  /** Where a stage puts its outputs, seen as a column of the next stage. */
  lemma StageColumn<C>(o: Ops<C>, st: Stage<C>, x: seq<C>, q: nat, p: nat, j: nat)
    requires InStage(st, |x|, j, q, p)
    ensures Column(o, ApplyStage(o, st, x), Cell(p, q, st.stride), Area(st.radix, st.stride))(j)
      == StageValue(o, st, x, j, q, p)
  {
    hide Area, Cell, Butterfly;
    CellNests(j, p, q, st.radix, st.stride);
    SamePosition(o, st, x, j, q, p);
  }

  // ---- The whole transform ----------------------------------------------------------

  lemma {:induction false} ChainedShapes<C>(stages: seq<Stage<C>>, root: (nat, nat) -> C,
                                            current: nat, stride: nat, left: nat, leftStride: nat, length: nat)
    requires Chained(stages, root, current, stride, left, leftStride, length)
    ensures Shapes(stages, length)
  {
    hide Area, StageShape;
    if stages != [] {
      ChainedShapes(stages[1..], root, stages[0].groups, Area(stages[0].radix, stride), left, leftStride, length);
    }
  }

  /** The loop invariant of the kernel: what is left to run takes the `current`-point transform
      of each of the `stride` interleaved columns of the buffer. */
  lemma {:induction false} StagesTransform<C(!new)>(o: Ops<C>, root: (nat, nat) -> C, stages: seq<Stage<C>>, x: seq<C>,
                                                    current: nat, stride: nat, q: nat, k: nat)
    requires Semiring(o) && RootsOfUnity(o, root)
    requires Chained(stages, root, current, stride, 1, |x|, |x|) && Shapes(stages, |x|)
    requires q < stride && k < current
    ensures Cell(k, q, stride) < |x|
    ensures Transform(o, stages, x)[Cell(k, q, stride)] == Dft(o, root, current, Column(o, x, q, stride), k)
    decreases |stages|
  {
    hide Area, Cell, Dft, Column, StageTables;
    if stages == [] {
      TransformOfOne(o, root, Column(o, x, q, stride));
      ColumnStart(o, x, q);
    } else {
      var st := stages[0];
      var r, g := st.radix, st.groups;
      AreaCommutes(r, g);
      CellEncodes(k, g, r);
      var p, k' := k % r, k / r;
      CellNests(k', p, q, r, stride);
      CellInRange(p, q, r, stride);
      var y := ApplyStage(o, st, x);
      StagesTransform(o, root, stages[1..], y, g, Area(r, stride), Cell(p, q, stride), k');
      StageTransforms(o, root, st, x, q, p, k');
    }
  }

  lemma ColumnStart<C>(o: Ops<C>, x: seq<C>, q: nat)
    requires q < |x|
    ensures Cell(0, q, |x|) == q && Column(o, x, q, |x|)(0) == x[q]
  {
  }

  lemma TransformOfOne<C(!new)>(o: Ops<C>, root: (nat, nat) -> C, f: nat -> C)
    requires Semiring(o) && RootsOfUnity(o, root)
    ensures Dft(o, root, 1, f, 0) == f(0)
  {
    var term := (j: nat) => o.mul(f(j), root(Area(j, 0), 1));
    assert Sum(o, 1, term) == o.add(Sum(o, 0, term), term(0));
    assert RootLaw(o, root, 0, 0, 1, 1);
    assert Laws(o, f(0), o.one, o.one) && Laws(o, f(0), o.zero, o.zero);
  }

  lemma ValidPlanShapes<C>(plan: Plan<C>, root: (nat, nat) -> C)
    requires ValidPlan(plan, root)
    ensures Shapes(plan.stages, plan.length)
  {
    ChainedShapes(plan.stages, root, plan.length, 1, 1, plan.length, plan.length);
  }

  /** Planning and running together give the discrete Fourier transform of the input. */
  lemma TransformIsDft<C(!new)>(o: Ops<C>, root: (nat, nat) -> C, plan: Plan<C>, x: seq<C>, k: nat)
    requires Semiring(o) && RootsOfUnity(o, root)
    requires ValidPlan(plan, root) && |x| == plan.length && k < plan.length
    ensures Shapes(plan.stages, plan.length)
    ensures Transform(o, plan.stages, x)[k] == Dft(o, root, plan.length, Samples(o, x), k)
  {
    ValidPlanShapes(plan, root);
    StagesTransform(o, root, plan.stages, x, plan.length, 1, 0, k);
    var samples := Samples(o, x);
    SumCongruent(o, plan.length,
                 (j: nat) => o.mul(Column(o, x, 0, 1)(j), root(Area(j, k), plan.length)),
                 (j: nat) => o.mul(samples(j), root(Area(j, k), plan.length)));
  }

  /** Planning the length of a buffer and running the plan in place: on every 13-smooth length the buffer ends up
      holding the discrete Fourier transform of what it held. */
  method PlanAndRun<C(!new)>(o: Ops<C>, root: (nat, nat) -> C, input: array<C>, scratch: array<C>)
    returns (r: Result<(), FftError>)
    requires Semiring(o) && RootsOfUnity(o, root)
    requires input != scratch && input.Length <= USIZE_MAX
    modifies input, scratch
    ensures r.Ok? <==> input.Length > 0 && Factors.Smooth(input.Length) && scratch.Length == input.Length
    ensures r.Ok? ==> forall k :: 0 <= k < input.Length ==>
      input[k] == Dft(o, root, input.Length, Samples(o, old(input[..])), k)
    ensures r.Err? ==> unchanged(input) && unchanged(scratch)
  {
    hide Semiring, RootsOfUnity, ValidPlan, Shapes, Dft, Samples, Transform, Factors.Smooth;
    var plan := NewPlan(root, input.Length);
    if plan.Err? {
      return Err(plan.error);
    }
    ghost var x := input[..];
    ValidPlanShapes(plan.value, root);
    r := ForwardInPlace(o, plan.value, input, scratch);
    if r.Ok? {
      forall k | 0 <= k < input.Length ensures input[k] == Dft(o, root, input.Length, Samples(o, x), k) {
        TransformIsDft(o, root, plan.value, x, k);
        assert input[..][k] == input[k];
      }
    }
  }
}
