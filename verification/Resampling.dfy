/** Polyphase FIR resampling of a complete input, with the filter arithmetic left open. */
module Resampling {
  import Division
  import opened Grids
  import opened Rates
  import opened Results

  /** The filter's arithmetic: samples `S`, coefficients and accumulators `A`. */
  datatype Fir<!S, !A> = Fir(zero: A, step: (A, A, S) -> A, output: A -> S, finite: S -> bool)

  datatype Resampler<A> = Resampler(pair: RatePair, phases: seq<seq<A>>, center: nat) {
    predicate Valid() {
      && pair.Valid() && |phases| == pair.numerator
      && PerPhase() > 0 && forall p :: 0 <= p < |phases| ==> |phases[p]| == PerPhase()
    }
    function PerPhase(): nat { if |phases| == 0 then 0 else |phases[0]| }
    /** The position of output `n` in the upsampled signal. */
    function Position(n: nat): nat { Cell(n, center, pair.denominator) }
    /** The newest input sample under the filter for output `n`. */
    function Base(n: nat): nat
      requires pair.numerator > 0
    {
      Position(n) / pair.numerator
    }
    function Phase(n: nat): nat
      requires pair.numerator > 0
    {
      Position(n) % pair.numerator
    }
  }

  datatype ResampleError = NonFiniteInput | NonFiniteOutput

  // ---- Construction -----------------------------------------------------------------

  function CeilDiv(value: nat, divisor: nat): nat
    requires divisor > 0
  {
    value / divisor + if value % divisor == 0 then 0 else 1
  }

  /** The ceiling: the least multiple count that reaches `value`. */
  lemma CeilDivLeast(value: nat, divisor: nat, n: nat)
    requires divisor > 0
    ensures n < CeilDiv(value, divisor) <==> Area(n, divisor) < value
  {
    var q, r := value / divisor, value % divisor;
    assert value == divisor * q + r;
    Division.FloorAtLeast(value, divisor, n);
    Division.FloorAtLeast(value, divisor, n + 1);
    assert n * divisor == divisor * n;
    if n == q { assert divisor * n == divisor * q; }
  }

  /** `phases[p][tap]` is the coefficient `tap * L + p`, or zero past the end of the filter. */
  ghost predicate Polyphase<A>(phases: seq<seq<A>>, coefficients: seq<A>, zero: A) {
    forall p: nat, tap: nat :: p < |phases| && tap < |phases[p]| ==>
      phases[p][tap] == if Cell(tap, p, |phases|) < |coefficients| then coefficients[Cell(tap, p, |phases|)] else zero
  }

  method NewPhases<A>(coefficients: seq<A>, zero: A, interpolation: nat) returns (phases: seq<seq<A>>)
    requires interpolation > 0
    ensures |phases| == interpolation && Polyphase(phases, coefficients, zero)
    ensures forall p :: 0 <= p < |phases| ==> |phases[p]| == CeilDiv(|coefficients|, interpolation)
  {
    hide Cell;
    var perPhase := CeilDiv(|coefficients|, interpolation);
    phases := [];
    for phase := 0 to interpolation
      invariant |phases| == phase
      invariant forall p: nat :: p < phase ==> |phases[p]| == perPhase
      invariant forall p: nat, tap: nat :: p < phase && tap < perPhase ==>
        phases[p][tap] == if Cell(tap, p, interpolation) < |coefficients|
          then coefficients[Cell(tap, p, interpolation)] else zero
    {
      var branch: seq<A> := [];
      for tap := 0 to perPhase
        invariant |branch| == tap
        invariant forall t: nat :: t < tap ==>
          branch[t] == if Cell(t, phase, interpolation) < |coefficients|
            then coefficients[Cell(t, phase, interpolation)] else zero
      {
        var offset := Cell(tap, phase, interpolation);
        branch := branch + [if offset < |coefficients| then coefficients[offset] else zero];
      }
      phases := phases + [branch];
    }
  }

  /** The designed filter length is the taps times the larger factor, made odd. */
  function FilterLength(pair: RatePair, taps: nat): nat {
    var unrounded := Area(taps, if pair.numerator >= pair.denominator then pair.numerator else pair.denominator);
    unrounded + (1 - unrounded % 2)
  }

  method NewResampler<A>(pair: RatePair, taps: nat, coefficients: seq<A>, zero: A) returns (r: Resampler<A>)
    requires pair.Valid() && taps >= 2 && |coefficients| == FilterLength(pair, taps)
    ensures r.Valid() && r.pair == pair && Polyphase(r.phases, coefficients, zero)
    ensures 2 * r.center + 1 == |coefficients|
    ensures r.PerPhase() == CeilDiv(|coefficients|, pair.numerator)
  {
    FilterLengthLeast(pair, taps, 1);
    var phases := NewPhases(coefficients, zero, pair.numerator);
    r := Resampler(pair, phases, (|coefficients| - 1) / 2);
    CeilDivLeast(|coefficients|, pair.numerator, 0);
  }

  lemma MadeOdd(u: nat, n: nat)
    ensures (u + (1 - u % 2)) % 2 == 1
    ensures n % 2 == 1 ==> (u + (1 - u % 2) <= n <==> u <= n)
  {
  }

  lemma TwiceIsLeast(taps: nat, larger: nat)
    requires taps >= 2 && larger > 0
    ensures Area(taps, larger) >= 2
  {
    AreaMonotone(2, 1, taps, larger);
  }

  /** The least odd length that reaches the taps times either factor. */
  lemma FilterLengthLeast(pair: RatePair, taps: nat, n: nat)
    requires pair.Valid() && taps >= 2
    ensures FilterLength(pair, taps) % 2 == 1 && FilterLength(pair, taps) >= 3
    ensures n % 2 == 1 ==>
      (FilterLength(pair, taps) <= n <==> Area(taps, pair.numerator) <= n && Area(taps, pair.denominator) <= n)
  {
    hide Area;
    var larger := if pair.numerator >= pair.denominator then pair.numerator else pair.denominator;
    TwiceIsLeast(taps, larger);
    AreaMonotone(taps, pair.numerator, taps, larger);
    AreaMonotone(taps, pair.denominator, taps, larger);
    MadeOdd(Area(taps, larger), n);
  }

  // ---- The offline form -------------------------------------------------------------

  /** The filter sum over the first `taps` taps whose input sample exists. */
  function Accumulate<S, A>(fir: Fir<S, A>, branch: seq<A>, input: seq<S>, base: nat, taps: nat): A
    requires taps <= |branch|
  {
    if taps == 0 then fir.zero
    else
      var sum := Accumulate(fir, branch, input, base, taps - 1);
      var tap := taps - 1;
      if tap <= base && base - tap < |input| then fir.step(sum, branch[tap], input[base - tap]) else sum
  }

  function OutputAt<S, A>(fir: Fir<S, A>, r: Resampler<A>, input: seq<S>, n: nat): S
    requires r.Valid()
  {
    fir.output(Accumulate(fir, r.phases[r.Phase(n)], input, r.Base(n), r.PerPhase()))
  }

  function OutputCount<A>(r: Resampler<A>, inputs: nat): nat
    requires r.Valid()
  {
    CeilDiv(Area(inputs, r.pair.numerator), r.pair.denominator)
  }

  /** Outputs `from` to `to` of the resampling of `input`. */
  function Outputs<S, A>(fir: Fir<S, A>, r: Resampler<A>, input: seq<S>, from: nat, to: nat): (y: seq<S>)
    requires r.Valid() && from <= to
    ensures |y| == to - from
  {
    seq(to - from, i requires 0 <= i < to - from => OutputAt(fir, r, input, from + i))
  }

  predicate AllFinite<S, A>(fir: Fir<S, A>, x: seq<S>) {
    forall i :: 0 <= i < |x| ==> fir.finite(x[i])
  }

  /** What resampling a complete input means. */
  function Processed<S, A>(fir: Fir<S, A>, r: Resampler<A>, input: seq<S>): Result<seq<S>, ResampleError>
    requires r.Valid()
  {
    if !AllFinite(fir, input) then Err(NonFiniteInput)
    else if r.pair.IsIdentity() then Ok(input)
    else
      var output := Outputs(fir, r, input, 0, OutputCount(r, |input|));
      if AllFinite(fir, output) then Ok(output) else Err(NonFiniteOutput)
  }

  /** Output `n` exists exactly when its instant, `n` times the denominator in the upsampled signal, lies before the
      end of the input. */
  ghost predicate EveryInstant(pair: RatePair, inputs: nat, outputs: nat) {
    forall n: nat :: n < outputs <==> Area(n, pair.denominator) < Area(inputs, pair.numerator)
  }

  lemma ProcessedCount<S, A>(fir: Fir<S, A>, r: Resampler<A>, input: seq<S>)
    requires r.Valid()
    ensures var y := Processed(fir, r, input);
      y.Ok? && !r.pair.IsIdentity() ==> EveryInstant(r.pair, |input|, |y.value|)
  {
    hide OutputAt, Area;
    forall n: nat
      ensures n < OutputCount(r, |input|) <==> Area(n, r.pair.denominator) < Area(|input|, r.pair.numerator)
    {
      CeilDivLeast(Area(|input|, r.pair.numerator), r.pair.denominator, n);
    }
  }

  method ComputeOutput<S, A>(fir: Fir<S, A>, r: Resampler<A>, input: seq<S>, n: nat)
    returns (y: Result<S, ResampleError>)
    requires r.Valid()
    ensures y == if fir.finite(OutputAt(fir, r, input, n)) then Ok(OutputAt(fir, r, input, n)) else Err(NonFiniteOutput)
  {
    hide Cell;
    var position := Cell(n, r.center, r.pair.denominator);
    var base := position / r.pair.numerator;
    var branch := r.phases[position % r.pair.numerator];
    var accumulator := fir.zero;
    var tap := 0;
    while tap < |branch| && tap <= base
      invariant tap <= |branch|
      invariant accumulator == Accumulate(fir, branch, input, base, tap)
    {
      if base - tap < |input| {
        accumulator := fir.step(accumulator, branch[tap], input[base - tap]);
      }
      tap := tap + 1;
    }
    TapsBeyondBase(fir, branch, input, base, tap, |branch|);
    var output := fir.output(accumulator);
    y := if fir.finite(output) then Ok(output) else Err(NonFiniteOutput);
  }

  lemma {:induction false} TapsBeyondBase<S, A>(fir: Fir<S, A>, branch: seq<A>, input: seq<S>, base: nat, from: nat,
                                                to: nat)
    requires from <= to <= |branch| && (from == to || from > base)
    ensures Accumulate(fir, branch, input, base, to) == Accumulate(fir, branch, input, base, from)
  {
    if from < to {
      TapsBeyondBase(fir, branch, input, base, from, to - 1);
    }
  }

  method Process<S, A>(fir: Fir<S, A>, r: Resampler<A>, input: seq<S>) returns (y: Result<seq<S>, ResampleError>)
    requires r.Valid()
    ensures y == Processed(fir, r, input)
    ensures y.Ok? && r.pair.IsIdentity() ==> y.value == input
    ensures y.Ok? && !r.pair.IsIdentity() ==> EveryInstant(r.pair, |input|, |y.value|)
  {
    hide OutputAt, Area, EveryInstant;
    ProcessedCount(fir, r, input);
    for i := 0 to |input|
      invariant forall k :: 0 <= k < i ==> fir.finite(input[k])
    {
      if !fir.finite(input[i]) {
        return Err(NonFiniteInput);
      }
    }
    if r.pair.IsIdentity() {
      return Ok(input);
    }
    var count := OutputCount(r, |input|);
    ghost var all := Outputs(fir, r, input, 0, count);
    var output: seq<S> := [];
    for n := 0 to count
      invariant output == all[..n] && AllFinite(fir, output)
    {
      var value := ComputeOutput(fir, r, input, n);
      assert all[n] == OutputAt(fir, r, input, n);
      if value.Err? {
        assert !fir.finite(all[n]);
        return Err(value.error);
      }
      output := output + [value.value];
    }
    assert all[..count] == all;
    y := Ok(output);
  }

  // ---- What an output depends on ----------------------------------------------------

  lemma CellSplits(a: nat, b: nat, c: nat, columns: nat)
    ensures Cell(a + b, c, columns) == Area(a, columns) + Cell(b, c, columns)
  {
  }

  lemma BaseBelow<A>(r: Resampler<A>, n: nat, total: nat)
    requires r.Valid()
    ensures r.Base(n) < total <==> r.Position(n) < Area(total, r.pair.numerator)
  {
    Division.FloorAtLeast(r.Position(n), r.pair.numerator, total);
    assert r.pair.numerator * total == Area(total, r.pair.numerator);
  }

  lemma BaseMonotone<A>(r: Resampler<A>, n: nat, m: nat)
    requires r.Valid() && n <= m
    ensures r.Base(n) <= r.Base(m)
  {
    BaseBelow(r, m, r.Base(m) + 1);
    AreaMonotone(n, r.pair.denominator, m, r.pair.denominator);
    PositionMonotone(r, n, m);
    BaseBelow(r, n, r.Base(m) + 1);
  }

  lemma PositionMonotone<A>(r: Resampler<A>, n: nat, m: nat)
    requires r.Valid()
    ensures n <= m ==> r.Position(n) <= r.Position(m)
    ensures n < m ==> r.Position(n) < r.Position(m)
  {
    var d := r.pair.denominator;
    assert n < m ==> n * d + d <= m * d by { assert n < m ==> (n + 1) * d <= m * d; }
  }

  /** An output whose newest sample has arrived is within the final count. */
  lemma EmittedWithinCount<A>(r: Resampler<A>, n: nat, total: nat)
    requires r.Valid() && r.Base(n) < total
    ensures n < OutputCount(r, total)
  {
    BaseBelow(r, n, total);
    CeilDivLeast(Area(total, r.pair.numerator), r.pair.denominator, n);
    CellSplits(n, 0, r.center, r.pair.denominator);
  }

  /** A settled output does not depend on later input. */
  lemma {:induction false} AccumulatePrefix<S, A>(fir: Fir<S, A>, branch: seq<A>, x: seq<S>, y: seq<S>, base: nat,
                                                  taps: nat)
    requires taps <= |branch| && base < |x| && x <= y
    ensures Accumulate(fir, branch, x, base, taps) == Accumulate(fir, branch, y, base, taps)
  {
    if taps > 0 {
      AccumulatePrefix(fir, branch, x, y, base, taps - 1);
    }
  }

  lemma OutputsPrefix<S, A>(fir: Fir<S, A>, r: Resampler<A>, x: seq<S>, y: seq<S>, from: nat, to: nat)
    requires r.Valid() && x <= y && from <= to && (from < to ==> r.Base(to - 1) < |x|)
    ensures Outputs(fir, r, x, from, to) == Outputs(fir, r, y, from, to)
  {
    forall n: nat | from <= n < to ensures OutputAt(fir, r, x, n) == OutputAt(fir, r, y, n) {
      BaseMonotone(r, n, to - 1);
      AccumulatePrefix(fir, r.phases[r.Phase(n)], x, y, r.Base(n), r.PerPhase());
    }
    hide OutputAt;
  }

  lemma OutputsJoin<S, A>(fir: Fir<S, A>, r: Resampler<A>, x: seq<S>, from: nat, mid: nat, to: nat)
    requires r.Valid() && from <= mid <= to
    ensures Outputs(fir, r, x, from, mid) + Outputs(fir, r, x, mid, to) == Outputs(fir, r, x, from, to)
  {
    hide OutputAt;
  }
}
