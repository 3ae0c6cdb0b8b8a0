/** What one non-finite sample does to a transform: it reaches every output. */
module NonFinite {
  import Division
  import opened Fft
  import opened FftKernel
  import opened Grids
  import opened RealFft
  import opened Rings

  // ---- Spreading through the stages, for any absorbing property ----------------------

  /** Sums keep the property, products by a factor make it `ruined`. */
  predicate Absorbs<C>(o: Ops<C>, bad: C -> bool, ruined: C -> bool, x: C, y: C) {
    && (bad(x) ==> bad(o.add(x, y)) && bad(o.add(y, x)) && ruined(o.mul(x, y)))
    && (ruined(x) ==> bad(x))
  }

  ghost predicate Absorbing<C(!new)>(o: Ops<C>, bad: C -> bool, ruined: C -> bool) {
    forall x, y :: Absorbs(o, bad, ruined, x, y)
  }

  lemma {:induction false} ButterflySpreads<C(!new)>(o: Ops<C>, bad: C -> bool, ruined: C -> bool, st: Stage<C>,
                                                     x: seq<C>,
                                                    group: nat, offset: nat, output: nat, t: nat, count: nat)
    requires Absorbing(o, bad, ruined) && InStage(st, |x|, group, offset, output) && t < count <= st.radix
    requires bad(Lane(st, x, group, offset, t))
    ensures bad(Butterfly(o, st, x, group, offset, output, count))
    decreases count
  {
    hide Absorbs, Lane, Area, Cell;
    if count > 1 {
      TablesInRange(st, |x|, group, offset, count - 1, output);
      var value := Lane(st, x, group, offset, count - 1);
      var root := st.roots[Cell(count - 1, output, st.radix)];
      var before := Butterfly(o, st, x, group, offset, output, count - 1);
      AbsorbLaws(o, bad, ruined, value, root);
      AbsorbLaws(o, bad, ruined, o.mul(value, root), before);
      AbsorbLaws(o, bad, ruined, before, o.mul(value, root));
      if t < count - 1 {
        ButterflySpreads(o, bad, ruined, st, x, group, offset, output, t, count - 1);
      }
    }
  }

  lemma AbsorbLaws<C(!new)>(o: Ops<C>, bad: C -> bool, ruined: C -> bool, x: C, y: C)
    requires Absorbing(o, bad, ruined)
    ensures bad(x) ==> bad(o.add(x, y)) && bad(o.add(y, x)) && ruined(o.mul(x, y))
    ensures ruined(x) ==> bad(x)
  {
    assert Absorbs(o, bad, ruined, x, y);
  }

  /** The lane a source position feeds. */
  lemma SourceEncodes<C>(st: Stage<C>, length: nat, j: nat) returns (group: nat, offset: nat, t: nat)
    requires StageShape(st, length) && j < length
    ensures InStage(st, length, group, offset, t) && SourceIndex(st, group, offset, t) == j && offset == j % st.stride
  {
    hide Area, Cell;
    CellEncodes(j, Area(st.radix, st.groups), st.stride);
    CellEncodes(j / st.stride, st.radix, st.groups);
    group, offset, t := (j / st.stride) % st.groups, j % st.stride, (j / st.stride) / st.groups;
  }

  /** Positions of one residue class after a stage: the outputs of one lane are the classes of the next stride. */
  lemma NextResidue<C>(st: Stage<C>, length: nat, group: nat, offset: nat, output: nat)
    requires InStage(st, length, group, offset, output)
    ensures Area(st.radix, st.stride) > 0
    ensures DestinationIndex(st, group, offset, output) % Area(st.radix, st.stride) == Cell(output, offset, st.stride)
  {
    hide Area, Cell;
    CellInRange(output, offset, st.radix, st.stride);
    CellNests(group, output, offset, st.radix, st.stride);
    CellDecodes(group, Cell(output, offset, st.stride), Area(st.radix, st.stride));
  }

  /** One stage: a bad source ruins, in the residue class of any `k` it can reach, some destination. */
  lemma StageSpreads<C(!new)>(o: Ops<C>, bad: C -> bool, ruined: C -> bool, st: Stage<C>, x: seq<C>, j: nat, k: nat)
    returns (d: nat)
    requires Absorbing(o, bad, ruined) && StageShape(st, |x|) && j < |x| && k < |x|
    requires bad(x[j]) && k % st.stride == j % st.stride
    ensures d < |x| && ruined(ApplyStage(o, st, x)[d])
    ensures Area(st.radix, st.stride) > 0 && d % Area(st.radix, st.stride) == k % Area(st.radix, st.stride)
  {
    hide Area, Cell, Absorbs, Butterfly, StageShape, GroupOf, OutputOf;
    var group, offset, t := SourceEncodes(st, |x|, j);
    LaneIs(st, x, group, offset, t) by { SourceInRange(st, |x|, group, offset, t); }
    DestinationEncodes(st, |x|, k);
    var output := OutputOf(st, k);
    NextResidue(st, |x|, GroupOf(st, k), OffsetOf(st, k), output);
    NextResidue(st, |x|, group, offset, output);
    SamePosition(o, st, x, group, offset, output);
    d := DestinationIndex(st, group, offset, output);
    Radix(st, |x|);
    ButterflySpreads(o, bad, ruined, st, x, group, offset, output, t, st.radix);
    TablesInRange(st, |x|, group, offset, output, output);
    AbsorbLaws(o, bad, ruined, Butterfly(o, st, x, group, offset, output, st.radix),
               st.twiddles[Cell(group, output, st.radix)]);
  }

  lemma Radix<C>(st: Stage<C>, length: nat)
    requires StageShape(st, length)
    ensures st.radix >= 1 && st.stride >= 1
  {
  }

  /** A bad value reaches every output of its residue class, and ruins it when there is any stage at all. */
  lemma {:induction false} TransformSpreads<C(!new)>(o: Ops<C>, bad: C -> bool, ruined: C -> bool,
                                                     stages: seq<Stage<C>>,
                                                    root: (nat, nat) -> C, current: nat, stride: nat, x: seq<C>,
                                                      j: nat, k: nat)
    requires Absorbing(o, bad, ruined) && Chained(stages, root, current, stride, 1, |x|, |x|) && Shapes(stages, |x|)
    requires j < |x| && k < |x| && stride > 0 && k % stride == j % stride && bad(x[j])
    ensures bad(Transform(o, stages, x)[k])
    ensures stages != [] ==> ruined(Transform(o, stages, x)[k])
    decreases |stages|
  {
    hide Area, Absorbs, StageAt, StageShape, StageTables;
    if stages == [] {
      SameResidue(j, k, stride);
    } else {
      var y := ApplyStage(o, stages[0], x);
      var d := StageSpreads(o, bad, ruined, stages[0], x, j, k);
      AbsorbLaws(o, bad, ruined, y[d], y[d]);
      TransformSpreads(o, bad, ruined, stages[1..], root, stages[0].groups, Area(stages[0].radix, stride), y, d, k);
      if stages[1..] == [] { SameResidue(d, k, |x|); }
    }
  }

  lemma SameResidue(a: nat, b: nat, n: nat)
    requires a < n && b < n && a % n == b % n
    ensures a == b
  {
    Division.QuotientRemainder(n, 0, a);
    Division.QuotientRemainder(n, 0, b);
  }

  // ---- Floating point's own rules ----------------------------------------------------

  /** How IEEE 754 operations treat infinities and NaNs (section 6). */
  predicate NonFiniteRules<T>(s: Scalars<T>, nan: T -> bool, x: T, y: T) {
    && (!s.finite(x) ==>
        !s.finite(s.add(x, y)) && !s.finite(s.add(y, x)) && !s.finite(s.sub(x, y)) && !s.finite(s.sub(y, x)))
    && (!s.finite(x) ==> !s.finite(s.mul(x, y)) && !s.finite(s.mul(y, x)) && !s.finite(s.neg(x)))
    && (nan(x) ==> nan(s.add(x, y)) && nan(s.add(y, x)) && nan(s.sub(x, y)) && nan(s.sub(y, x)))
    && (nan(x) ==> nan(s.mul(x, y)) && nan(s.mul(y, x)) && nan(s.neg(x)))
    && (!s.finite(x) && !s.finite(y) ==> nan(s.add(x, y)) || nan(s.sub(x, y)))
  }

  ghost predicate FollowsIeee<T(!new)>(s: Scalars<T>, nan: T -> bool) {
    forall x, y :: NonFiniteRules(s, nan, x, y)
  }

  function BadComplex<T>(s: Scalars<T>): Complex<T> -> bool {
    (z: Complex<T>) => !s.finite(z.re) || !s.finite(z.im)
  }

  function RuinedComplex<T>(s: Scalars<T>): Complex<T> -> bool {
    (z: Complex<T>) => !s.finite(z.re) && !s.finite(z.im)
  }

  lemma ComplexAbsorbs<T(!new)>(s: Scalars<T>, nan: T -> bool)
    requires FollowsIeee(s, nan)
    ensures Absorbing(ComplexOps(s), BadComplex(s), RuinedComplex(s))
  {
    hide NonFiniteRules;
    forall x: Complex<T>, y: Complex<T> ensures Absorbs(ComplexOps(s), BadComplex(s), RuinedComplex(s), x, y) {
      AddSpreads(s, nan, x, y);
      MultiplySpreads(s, nan, x, y);
    }
  }

  lemma Rules<T(!new)>(s: Scalars<T>, nan: T -> bool, x: T, y: T)
    requires FollowsIeee(s, nan)
    ensures NonFiniteRules(s, nan, x, y)
  {
  }

  lemma AddSpreads<T(!new)>(s: Scalars<T>, nan: T -> bool, x: Complex<T>, y: Complex<T>)
    requires FollowsIeee(s, nan)
    ensures BadComplex(s)(x) ==> BadComplex(s)(Add(s, x, y)) && BadComplex(s)(Add(s, y, x))
  {
    Rules(s, nan, x.re, y.re);
    Rules(s, nan, x.im, y.im);
  }

  lemma MultiplySpreads<T(!new)>(s: Scalars<T>, nan: T -> bool, x: Complex<T>, y: Complex<T>)
    requires FollowsIeee(s, nan)
    ensures BadComplex(s)(x) ==> RuinedComplex(s)(Multiply(s, x, y))
  {
    Rules(s, nan, x.re, y.re);
    Rules(s, nan, x.im, y.im);
    Rules(s, nan, x.re, y.im);
    Rules(s, nan, x.im, y.re);
    Rules(s, nan, s.mul(x.re, y.re), s.mul(x.im, y.im));
    Rules(s, nan, s.mul(x.im, y.im), s.mul(x.re, y.re));
    Rules(s, nan, s.mul(x.re, y.im), s.mul(x.im, y.re));
    Rules(s, nan, s.mul(x.im, y.re), s.mul(x.re, y.im));
  }

  // ---- The real transform ------------------------------------------------------------

  /** Two non-finite numbers give a NaN in their sum or in their difference, scaled or not. */
  lemma HalvesAreNan<T(!new)>(s: Scalars<T>, nan: T -> bool, x: T, y: T)
    requires FollowsIeee(s, nan) && !s.finite(x) && !s.finite(y)
    ensures nan(s.mul(s.add(x, y), s.half)) || nan(s.mul(s.sub(x, y), s.half))
  {
    Rules(s, nan, x, y);
    Rules(s, nan, s.add(x, y), s.half);
    Rules(s, nan, s.sub(x, y), s.half);
  }

  lemma NanThrough<T(!new)>(s: Scalars<T>, nan: T -> bool, even: Complex<T>, odd: Complex<T>, factor: Complex<T>)
    requires FollowsIeee(s, nan) && (nan(even.re) || nan(even.im) || nan(odd.re) || nan(odd.im))
    ensures nan(Power(s, Add(s, even, Multiply(s, factor, odd))))
  {
    hide NonFiniteRules;
    var product := Multiply(s, factor, odd);
    var value := Add(s, even, product);
    NanProduct(s, nan, factor, odd);
    NanSum(s, nan, even.re, product.re);
    NanSum(s, nan, even.im, product.im);
    NanSquares(s, nan, value);
  }

  lemma NanProduct<T(!new)>(s: Scalars<T>, nan: T -> bool, factor: Complex<T>, odd: Complex<T>)
    requires FollowsIeee(s, nan)
    ensures nan(odd.re) || nan(odd.im) ==> nan(Multiply(s, factor, odd).re) && nan(Multiply(s, factor, odd).im)
  {
    Rules(s, nan, odd.re, factor.re);
    Rules(s, nan, odd.re, factor.im);
    Rules(s, nan, odd.im, factor.re);
    Rules(s, nan, odd.im, factor.im);
    Rules(s, nan, s.mul(factor.re, odd.re), s.mul(factor.im, odd.im));
    Rules(s, nan, s.mul(factor.im, odd.im), s.mul(factor.re, odd.re));
    Rules(s, nan, s.mul(factor.re, odd.im), s.mul(factor.im, odd.re));
    Rules(s, nan, s.mul(factor.im, odd.re), s.mul(factor.re, odd.im));
  }

  lemma NanSum<T(!new)>(s: Scalars<T>, nan: T -> bool, x: T, y: T)
    requires FollowsIeee(s, nan)
    ensures nan(x) || nan(y) ==> nan(s.add(x, y))
  {
    Rules(s, nan, x, y);
    Rules(s, nan, y, x);
  }

  lemma NanSquares<T(!new)>(s: Scalars<T>, nan: T -> bool, value: Complex<T>)
    requires FollowsIeee(s, nan)
    ensures nan(value.re) || nan(value.im) ==> nan(Power(s, value))
  {
    Rules(s, nan, value.re, value.re);
    Rules(s, nan, value.im, value.im);
    NanSum(s, nan, s.mul(value.re, value.re), s.mul(value.im, value.im));
  }

  /** The recombination of two bins, as the kernel writes it. */
  function Combined<T>(s: Scalars<T>, first: Complex<T>, second: Complex<T>, factor: Complex<T>): Complex<T> {
    var even := Complex(s.mul(s.add(first.re, second.re), s.half), s.mul(s.add(first.im, second.im), s.half));
    var difference := Complex(s.mul(s.sub(first.re, second.re), s.half), s.mul(s.sub(first.im, second.im), s.half));
    Add(s, even, Multiply(s, factor, Complex(difference.im, s.neg(difference.re))))
  }

  lemma RecombinedIsCombined<T>(s: Scalars<T>, spectrum: seq<Complex<T>>, factor: Complex<T>, k: nat)
    requires k <= |spectrum| && |spectrum| > 0
    ensures Recombined(s, spectrum, factor, k) ==
      Combined(s, spectrum[k % |spectrum|], Conjugate(s, spectrum[(|spectrum| - k) % |spectrum|]), factor)
  {
  }

  /** Recombining two bins that are non-finite in the same component gives a NaN power. */
  lemma CombinedIsNan<T(!new)>(s: Scalars<T>, nan: T -> bool, first: Complex<T>, second: Complex<T>, factor: Complex<T>)
    requires FollowsIeee(s, nan)
    requires (!s.finite(first.re) && !s.finite(second.re)) || (!s.finite(first.im) && !s.finite(second.im))
    ensures nan(Power(s, Combined(s, first, second, factor)))
  {
    hide FollowsIeee, Power, Add, Multiply;
    if !s.finite(first.re) && !s.finite(second.re) {
      HalvesAreNan(s, nan, first.re, second.re);
    } else {
      HalvesAreNan(s, nan, first.im, second.im);
    }
    var difference := Complex(s.mul(s.sub(first.re, second.re), s.half), s.mul(s.sub(first.im, second.im), s.half));
    NegationStays(s, nan, difference.re);
    var even := Complex(s.mul(s.add(first.re, second.re), s.half), s.mul(s.add(first.im, second.im), s.half));
    NanThrough(s, nan, even, Complex(difference.im, s.neg(difference.re)), factor);
  }

  lemma NegationStays<T(!new)>(s: Scalars<T>, nan: T -> bool, x: T)
    requires FollowsIeee(s, nan)
    ensures (!s.finite(x) ==> !s.finite(s.neg(x))) && (nan(x) ==> nan(s.neg(x)))
  {
    Rules(s, nan, x, x);
  }

  /** One non-finite packed sample makes every power a NaN. */
  lemma PowerIsNan<T(!new)>(s: Scalars<T>, nan: T -> bool, plan: RealPlan<T>, root: (nat, nat) -> Complex<T>,
                            packed: seq<Complex<T>>, j: nat, k: nat)
    requires FollowsIeee(s, nan) && ValidRealPlan(plan, root) && RealShapes(plan)
    requires |packed| == plan.half.length && j < |packed| && k <= |packed| && BadComplex(s)(packed[j])
    ensures nan(PowerAt(s, plan, packed, k))
  {
    hide FollowsIeee, Recombined, StageShape, Combined, Power;
    var o, stages := ComplexOps(s), plan.half.stages;
    ComplexAbsorbs(s, nan);
    var spectrum := Transform(o, stages, packed);
    var a, b := k % |spectrum|, (|spectrum| - k) % |spectrum|;
    TransformSpreads(o, BadComplex(s), RuinedComplex(s), stages, root, |packed|, 1, packed, j, a);
    TransformSpreads(o, BadComplex(s), RuinedComplex(s), stages, root, |packed|, 1, packed, j, b);
    RecombinedIsCombined(s, spectrum, plan.recombination[k], k);
    NegationStays(s, nan, spectrum[b].im);
    CombinedIsNan(s, nan, spectrum[a], Conjugate(s, spectrum[b]), plan.recombination[k]);
  }
}
