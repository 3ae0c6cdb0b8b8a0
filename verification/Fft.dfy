/** Mixed-radix Stockham FFT plans and their in-place execution over two swapped buffers. */
module Fft {
  import opened Factors
  import opened Grids
  import opened Results

  const KERNEL_WIDTH: nat := 16

  datatype FftError = ZeroLength | UnsupportedRadix(factor: nat) | Overflow | BufferLength

  datatype Stage<C> = Stage(radix: nat, groups: nat, stride: nat, twiddles: seq<C>, roots: seq<C>)

  datatype Plan<C> = Plan(length: nat, stages: seq<Stage<C>>)

  /** `exp(-2 pi i index / length)` for some system of roots; the index is reduced first. */
  function Twiddle<C>(root: (nat, nat) -> C, index: nat, length: nat): C
    requires length > 0
  {
    root(index % length, length)
  }

  // ---- What a plan is ---------------------------------------------------------------

  predicate StageShape<C>(st: Stage<C>, length: nat) {
    && 0 < st.radix <= KERNEL_WIDTH && 0 < st.groups && 0 < st.stride
    && Area(Area(st.radix, st.groups), st.stride) == length
    && |st.twiddles| == Area(st.groups, st.radix)
    && |st.roots| == Area(st.radix, st.radix)
  }

  /** `table` holds, row by row, the roots of order `length` with exponent row times column. */
  ghost predicate RootTable<C>(table: seq<C>, columns: nat, root: (nat, nat) -> C, length: nat) {
    columns > 0 && length > 0 &&
    forall i: nat :: i < |table| ==> table[i] == Twiddle(root, Area(i / columns, i % columns), length)
  }

  /** The tables hold the roots the butterfly multiplies by. */
  ghost predicate StageTables<C>(st: Stage<C>, root: (nat, nat) -> C) {
    && RootTable(st.twiddles, st.radix, root, Area(st.radix, st.groups))
    && RootTable(st.roots, st.radix, root, st.radix)
  }

  /** The stages take `current`-point transforms of `stride` interleaved sequences and leave
      `left`-point transforms of `leftStride` sequences. */
  ghost predicate Chained<C>(stages: seq<Stage<C>>, root: (nat, nat) -> C, current: nat, stride: nat,
                             left: nat, leftStride: nat, length: nat) {
    if stages == [] then
      current == left && stride == leftStride
    else
      var st := stages[0];
      && StageShape(st, length) && StageTables(st, root) && st.radix > 1
      && Area(st.radix, st.groups) == current && st.stride == stride
      && Chained(stages[1..], root, st.groups, Area(st.radix, stride), left, leftStride, length)
  }

  ghost predicate ValidPlan<C>(plan: Plan<C>, root: (nat, nat) -> C) {
    plan.length > 0 && Chained(plan.stages, root, plan.length, 1, 1, plan.length, plan.length)
  }

  lemma {:induction false} ChainedAppend<C>(stages: seq<Stage<C>>, st: Stage<C>, root: (nat, nat) -> C,
                                            current: nat, stride: nat, left: nat, leftStride: nat, length: nat)
    requires Chained(stages, root, current, stride, left, leftStride, length)
    requires StageShape(st, length) && StageTables(st, root) && st.radix > 1
    requires Area(st.radix, st.groups) == left && st.stride == leftStride
    ensures Chained(stages + [st], root, current, stride, st.groups, Area(st.radix, leftStride), length)
  {
    hide Area, StageShape, StageTables;
    if stages == [] {
      assert (stages + [st])[1..] == [];
    } else {
      ChainedAppend(stages[1..], st, root, stages[0].groups, Area(stages[0].radix, stride), left, leftStride, length);
      assert (stages + [st])[1..] == stages[1..] + [st];
    }
  }

  // ---- Planning ---------------------------------------------------------------------

  /** Trial division: a supported radix, or the least factor the kernel cannot take. */
  method SupportedFactor(length: nat) returns (r: Result<nat, FftError>)
    requires 1 < length <= USIZE_MAX
    ensures r.Ok? ==> 1 < r.value <= 13 && Divides(r.value, length)
    ensures r.Err? ==> r.error.UnsupportedRadix? && r.error.factor > 13 && LeastFactor(length, r.error.factor)
  {
    hide Divides, NoFactorBelow, LeastFactor;
    var small := [2, 3, 5, 7, 11, 13];
    for i := 0 to 6
      invariant forall k :: 0 <= k < i ==> !Divides(small[k], length)
    {
      DividesIs(small[i], length);
      if length % small[i] == 0 {
        return Ok(small[i]);
      }
    }
    assert NoFactorBelow(length, 17) by {
      assert forall k :: 0 <= k < 6 ==> !Divides(small[k], length);
      assert small[0] == 2 && small[1] == 3 && small[2] == 5 && small[3] == 7 && small[4] == 11 && small[5] == 13;
      NoFactorBelow17(length);
    }
    var factor := 17;
    while factor <= length / factor
      invariant factor % 2 == 1 && factor >= 17
      invariant NoFactorBelow(length, factor)
      decreases length - factor
    {
      TrialBound(factor, length);
      DividesIs(factor, length);
      if length % factor == 0 {
        IsLeastFactor(length, factor);
        return Err(UnsupportedRadix(factor));
      }
      NextFactor(length, factor);
      if factor + 2 > USIZE_MAX {
        return Err(Overflow);
      }
      factor := factor + 2;
    }
    LastFactor(length, factor);
    SmallRemainder(length, factor);
    if length > 16 {
      return Err(UnsupportedRadix(length));
    }
    r := Ok(length);
  }

  function CheckedProduct(left: nat, right: nat): (r: Result<nat, FftError>)
    ensures r.Ok? <==> Area(left, right) <= USIZE_MAX
    ensures r.Ok? ==> r.value == Area(left, right)
  {
    if left * right <= USIZE_MAX then Ok(left * right) else Err(Overflow)
  }

  /** One root table, entry by entry in row-major order. */
  method NewTwiddles<C>(root: (nat, nat) -> C, radix: nat, groups: nat, current: nat) returns (table: seq<C>)
    requires 0 < radix && 0 < current == Area(radix, groups) <= USIZE_MAX
    ensures |table| == Area(groups, radix) && RootTable(table, radix, root, current)
  {
    hide Area, Cell;
    table := [];
    CellNext(0, radix);
    for group := 0 to groups
      invariant |table| == Cell(group, 0, radix) && RootTable(table, radix, root, current)
    {
      for lane := 0 to radix
        invariant |table| == Cell(group, lane, radix) && RootTable(table, radix, root, current)
      {
        var index := CheckedProduct(group, lane);
        assert index.Ok? by { AreaMonotone(group, lane, groups, radix); AreaCommutes(radix, groups); }
        CellDecodes(group, lane, radix);
        table := table + [Twiddle(root, index.value, current)];
        CellSuccessor(group, lane, radix);
      }
      CellNext(group, radix);
    }
    AreaCell(groups, radix);
  }

  method NewRoots<C>(root: (nat, nat) -> C, radix: nat) returns (table: seq<C>)
    requires 0 < radix <= 13
    ensures |table| == Area(radix, radix) && RootTable(table, radix, root, radix)
  {
    hide Area, Cell;
    SmallArea(radix, radix);
    var count := CheckedProduct(radix, radix);
    table := [];
    for index := 0 to count.value
      invariant |table| == index && RootTable(table, radix, root, radix)
    {
      var row, column := index / radix, index % radix;
      CellEncodes(index, radix, radix);
      SmallArea(row, column);
      var product := CheckedProduct(row, column);
      table := table + [Twiddle(root, product.value, radix)];
    }
  }

  lemma NewStageTables<C>(st: Stage<C>, root: (nat, nat) -> C)
    requires RootTable(st.twiddles, st.radix, root, Area(st.radix, st.groups))
      && RootTable(st.roots, st.radix, root, st.radix)
    ensures StageTables(st, root)
  {
  }

  lemma SmallArea(a: nat, b: nat)
    requires a <= 13 && b <= 13
    ensures Area(a, b) <= 169
  {
    AreaMonotone(a, b, 13, 13);
  }

  /** A prime factor the kernel has no butterfly for. */
  ghost predicate LargeFactor(factor: nat, length: nat) {
    factor > 13 && Prime(factor) && Divides(factor, length)
  }

  /** What the planning loop keeps: the split of the length and its large prime factors. */
  ghost predicate Split(length: nat, current: nat, stride: nat) {
    0 < current && 0 < stride && Area(current, stride) == length && (Smooth(length) <==> Smooth(current))
  }

  lemma SplitBound(length: nat, current: nat, stride: nat)
    requires Split(length, current, stride)
    ensures current <= length && stride <= length
  {
    AreaMonotone(current, 1, current, stride);
    AreaMonotone(1, stride, current, stride);
  }

  lemma SplitStep(length: nat, current: nat, stride: nat, radix: nat)
    requires Split(length, current, stride) && 1 < radix <= 13 && Divides(radix, current)
    ensures var groups := current / radix;
            && 0 < groups < current && Area(radix, groups) == current
            && Split(length, groups, Area(radix, stride))
            && Area(Area(radix, groups), stride) == length
  {
    var groups := current / radix;
    QuotientFacts(current, radix);
    SmoothQuotient(radix, groups);
    hide Smooth, Area, Divides;
    AreaCommutes(radix, groups);
    AreaAssociates(groups, radix, stride);
    AreaMonotone(1, 1, radix, stride);
    assert Area(1, 1) == 1 by { AreaOne(); }
  }

  lemma QuotientFacts(n: nat, d: nat)
    requires 1 < d && 0 < n && Divides(d, n)
    ensures 0 < n / d < n && Area(d, n / d) == d * (n / d) == n
  {
    ProperQuotient(d, n / d);
  }

  lemma ProperQuotient(d: int, q: int)
    requires 1 < d && 0 < d * q
    ensures 0 < q < d * q
  {
    assert q <= 0 ==> d * q <= 0;
    assert d * q >= 2 * q || q <= 0;
  }

  lemma AreaOne()
    ensures Area(1, 1) == 1
  {
  }

  lemma SplitRefused(length: nat, current: nat, stride: nat, factor: nat)
    requires Split(length, current, stride) && factor > 13 && LeastFactor(current, factor)
    ensures LargeFactor(factor, length) && !Smooth(length)
  {
    LeastFactorIsPrime(current, factor);
    MultipleDivides(current, stride);
    DividesTransitive(factor, current, length);
  }

  lemma SplitStart(length: nat)
    requires length > 0
    ensures Split(length, length, 1)
    ensures forall stride :: Split(length, 1, stride) ==> stride == length && Smooth(length)
  {
  }

  /** Planning succeeds exactly on the nonzero lengths whose prime factors are all at most 13,
      without any of its products overflowing; a refusal names a prime factor above 13. */
  method NewPlan<C>(root: (nat, nat) -> C, length: nat) returns (r: Result<Plan<C>, FftError>)
    requires length <= USIZE_MAX
    ensures r.Ok? <==> length > 0 && Smooth(length)
    ensures r.Ok? ==> r.value.length == length && ValidPlan(r.value, root)
    ensures length == 0 ==> r == Err(ZeroLength)
    ensures r.Err? && length > 0 ==> r.error.UnsupportedRadix? && LargeFactor(r.error.factor, length)
  {
    hide Area, Split, Smooth, LargeFactor, Divides, LeastFactor, StageTables;
    if length == 0 {
      return Err(ZeroLength);
    }
    var stages: seq<Stage<C>> := [];
    var current, stride := length, 1;
    SplitStart(length);
    while current > 1
      invariant Split(length, current, stride) && current > 0 && stride > 0
      invariant Chained(stages, root, length, 1, current, stride, length)
      decreases current
    {
      SplitBound(length, current, stride);
      var factor := SupportedFactor(current);
      if factor.Err? {
        SplitRefused(length, current, stride, factor.error.factor);
        return Err(factor.error);
      }
      var radix := factor.value;
      var groups := current / radix;
      SplitStep(length, current, stride, radix);
      var twiddles := NewTwiddles(root, radix, groups, current);
      var roots := NewRoots(root, radix);
      var stage := Stage(radix, groups, stride, twiddles, roots);
      NewStageTables(stage, root);
      ChainedAppend(stages, stage, root, length, 1, current, stride, length);
      stages := stages + [stage];
      current := groups;
      SplitBound(length, groups, Area(radix, stride));
      var next := CheckedProduct(radix, stride);
      stride := next.value;
    }
    assert current == 1;
    r := Ok(Plan(length, stages));
  }
}
