/** Over exact arithmetic the polyphase form is the textbook resampler: insert zeros, filter,
    and keep every M-th sample. */
module PolyphaseTheorem {
  import Division
  import Rates
  import opened Grids
  import opened Resampling
  import opened Rings
  import opened Sequences
  import opened StreamResampling

  /** The exact filter arithmetic of a semiring. */
  function ExactFir<C>(o: Ops<C>): Fir<C, C> {
    Fir(o.zero, (sum: C, coefficient: C, sample: C) => o.add(sum, o.mul(coefficient, sample)), (sum: C) => sum,
        (x: C) => true)
  }

  /** The input with `factor - 1` zeros after every sample. */
  ghost function ZeroStuffed<C>(o: Ops<C>, input: seq<C>, factor: nat, position: int): C
    requires factor > 0
  {
    if 0 <= position && position % factor == 0 && position / factor < |input| then input[position / factor] else o.zero
  }

  /** The filter `h` applied to the zero-stuffed input at one position. */
  ghost function FullFilter<C>(o: Ops<C>, h: seq<C>, input: seq<C>, factor: nat, position: nat): C
    requires factor > 0
  {
    Sum(o, |h|, FilterTerm(o, h, input, factor, position))
  }

  ghost function FilterTerm<C>(o: Ops<C>, h: seq<C>, input: seq<C>, factor: nat, position: nat): nat -> C
    requires factor > 0
  {
    (i: nat) => if i < |h| then o.mul(h[i], ZeroStuffed(o, input, factor, position - i)) else o.zero
  }

  lemma {:induction false} SumPads<C(!new)>(o: Ops<C>, n: nat, m: nat, f: nat -> C)
    requires Semiring(o) && n <= m && forall i: nat :: n <= i < m ==> f(i) == o.zero
    ensures Sum(o, m, f) == Sum(o, n, f)
  {
    if n < m {
      SumPads(o, n, m - 1, f);
      assert Laws(o, o.zero, Sum(o, n, f), o.zero) && Laws(o, Sum(o, n, f), o.zero, o.zero);
    }
  }

  lemma {:induction false} SumSingle<C(!new)>(o: Ops<C>, n: nat, p: nat, f: nat -> C)
    requires Semiring(o) && p < n && forall i: nat :: i < n && i != p ==> f(i) == o.zero
    ensures Sum(o, n, f) == f(p)
  {
    assert Laws(o, f(p), o.zero, o.zero);
    if n == p + 1 {
      SumOfZeros(o, p, f);
    } else {
      SumSingle(o, n - 1, p, f);
      assert Laws(o, o.zero, f(p), o.zero);
    }
  }

  /** The taps of one phase, as terms of the full filter. */
  ghost function TapTerm<C>(o: Ops<C>, h: seq<C>, input: seq<C>, factor: nat, position: nat): nat -> C
    requires factor > 0
  {
    (tap: nat) => FilterTerm(o, h, input, factor, position)(Cell(tap, position % factor, factor))
  }

  lemma StuffedTap(position: nat, factor: nat, tap: nat)
    requires factor > 0
    ensures position - Cell(tap, position % factor, factor) == factor * (position / factor - tap)
    ensures (position - Cell(tap, position % factor, factor)) % factor == 0
    ensures tap <= position / factor ==>
      (position - Cell(tap, position % factor, factor)) / factor == position / factor - tap
    ensures tap <= position / factor <==> position - Cell(tap, position % factor, factor) >= 0
  {
    var q: int := position / factor - tap;
    assert position == factor * (position / factor) + position % factor;
    assert factor * q == factor * (position / factor) - tap * factor;
    Division.QuotientRemainder(factor, q, 0);
    assert q <= -1 ==> factor * q + factor <= 0;
  }

  /** The tap's term of the full filter is exactly what the polyphase loop adds, if anything. */
  lemma TapTermIs<C(!new)>(o: Ops<C>, r: Resampler<C>, h: seq<C>, input: seq<C>, position: nat, tap: nat)
    requires Semiring(o) && r.Valid() && Polyphase(r.phases, h, o.zero) && tap < r.PerPhase()
    ensures var L := r.pair.numerator; var base := position / L;
            TapTerm(o, h, input, L, position)(tap)
            == if tap <= base && base - tap < |input| then o.mul(r.phases[position % L][tap], input[base - tap])
              else o.zero
  {
    var L := r.pair.numerator;
    var phase, base := position % L, position / L;
    StuffedTap(position, L, tap);
    var i := Cell(tap, phase, L);
    assert r.phases[phase][tap] == if i < |h| then h[i] else o.zero;
    hide Cell, Polyphase;
    var stuffed := ZeroStuffed(o, input, L, position - i);
    assert stuffed == if tap <= base && base - tap < |input| then input[base - tap] else o.zero;
    assert Laws(o, stuffed, o.zero, o.zero);
    assert TapTerm(o, h, input, L, position)(tap) == FilterTerm(o, h, input, L, position)(i);
    assert FilterTerm(o, h, input, L, position)(i) == if i < |h| then o.mul(h[i], stuffed) else o.zero;
    if i < |h| {
      assert Laws(o, o.zero, h[i], h[i]) && Laws(o, h[i], o.zero, o.zero);
    }
  }

  lemma {:induction false} AccumulateIsSum<C(!new)>(o: Ops<C>, r: Resampler<C>, h: seq<C>, input: seq<C>,
                                                    position: nat, taps: nat)
    requires Semiring(o) && r.Valid() && Polyphase(r.phases, h, o.zero) && taps <= r.PerPhase()
    ensures Accumulate(ExactFir(o), r.phases[position % r.pair.numerator], input, position / r.pair.numerator, taps)
         == Sum(o, taps, TapTerm(o, h, input, r.pair.numerator, position))
  {
    if taps > 0 {
      AccumulateIsSum(o, r, h, input, position, taps - 1);
      TapTermIs(o, r, h, input, position, taps - 1);
      hide Polyphase, TapTerm;
      var sum := Sum(o, taps - 1, TapTerm(o, h, input, r.pair.numerator, position));
      assert Laws(o, o.zero, sum, sum) && Laws(o, sum, o.zero, o.zero);
    }
  }

  /** Between two taps of its phase the zero-stuffed input vanishes. */
  lemma OffPhaseVanishes<C(!new)>(o: Ops<C>, h: seq<C>, input: seq<C>, factor: nat, position: nat, tap: nat, p: nat)
    requires Semiring(o) && factor > 0 && p < factor && p != position % factor
    ensures FilterTerm(o, h, input, factor, position)(Cell(tap, p, factor)) == o.zero
  {
    var i := Cell(tap, p, factor);
    if (position - i) % factor == 0 {
      var k := (position - i) / factor;
      assert position == factor * (k + tap) + p by {
        assert position - i == factor * k;
        assert factor * (k + tap) == factor * k + tap * factor;
      }
      Division.QuotientRemainder(factor, k + tap, p);
    }
    if i < |h| {
      assert Laws(o, o.zero, h[i], h[i]) && Laws(o, h[i], o.zero, o.zero);
    }
  }

  /** The polyphase output is the full filter on the zero-stuffed input, at the output's instant delayed by half
      the filter. */
  lemma PolyphaseRefines<C(!new)>(o: Ops<C>, r: Resampler<C>, h: seq<C>, input: seq<C>, n: nat)
    requires Semiring(o) && r.Valid() && Polyphase(r.phases, h, o.zero)
    requires r.PerPhase() == CeilDiv(|h|, r.pair.numerator)
    ensures OutputAt(ExactFir(o), r, input, n)
         == FullFilter(o, h, input, r.pair.numerator, Area(n, r.pair.denominator) + r.center)
  {
    hide Polyphase, ZeroStuffed, FilterTerm, TapTerm;
    var L, position, taps := r.pair.numerator, r.Position(n), r.PerPhase();
    PositionIs(r, n);
    hide Cell;
    AccumulateIsSum(o, r, h, input, position, taps);
    PaddedFilter(o, h, input, L, position, taps);
    SumOfPhases(o, h, input, L, position, taps);
  }

  lemma PositionIs<C>(r: Resampler<C>, n: nat)
    ensures r.Position(n) == Area(n, r.pair.denominator) + r.center
  {
  }

  /** The textbook resampler: output `n` is the filter around instant `n` of the upsampled input, for every instant
      before the end of the input. */
  ghost predicate Resampled<C>(o: Ops<C>, h: seq<C>, pair: Rates.RatePair, input: seq<C>, output: seq<C>)
    requires pair.Valid() && |h| > 0
  {
    && EveryInstant(pair, |input|, |output|)
    && forall n: nat :: n < |output| ==>
         output[n] == FullFilter(o, h, input, pair.numerator, Area(n, pair.denominator) + (|h| - 1) / 2)
  }

  lemma ProcessedIsResampled<C(!new)>(o: Ops<C>, r: Resampler<C>, h: seq<C>, input: seq<C>)
    requires Semiring(o) && r.Valid() && Polyphase(r.phases, h, o.zero) && 2 * r.center + 1 == |h|
    requires r.PerPhase() == CeilDiv(|h|, r.pair.numerator)
    ensures var y := Processed(ExactFir(o), r, input);
      y.Ok? && if r.pair.IsIdentity() then y.value == input else Resampled(o, h, r.pair, input, y.value)
  {
    hide Polyphase, OutputAt, FullFilter, Area, Semiring;
    ProcessedCount(ExactFir(o), r, input);
    assert forall x :: AllFinite(ExactFir(o), x);
    if !r.pair.IsIdentity() {
      var y := Processed(ExactFir(o), r, input);
      forall n: nat | n < |y.value|
        ensures y.value[n] == FullFilter(o, h, input, r.pair.numerator, Area(n, r.pair.denominator) + r.center)
      {
        PolyphaseRefines(o, r, h, input, n);
      }
    }
  }

  /** Designing the phases from any coefficients and resampling an input that arrives in any chunks gives the
      textbook result, and the input itself where the rates are equal. */
  method PlanAndResample<C(!new)>(o: Ops<C>, pair: Rates.RatePair, taps: nat, h: seq<C>, chunks: seq<seq<C>>)
    returns (y: seq<C>)
    requires Semiring(o) && pair.Valid() && taps >= 2 && |h| == FilterLength(pair, taps)
    ensures if pair.IsIdentity() then y == Flatten(chunks) else Resampled(o, h, pair, Flatten(chunks), y)
  {
    hide Polyphase, Processed, Resampled, FilterLength, Semiring;
    var r := NewResampler(pair, taps, h, o.zero);
    ProcessedIsResampled(o, r, h, Flatten(chunks));
    var resampled := ResampleChunks(ExactFir(o), r, chunks);
    y := resampled.value;
  }

  lemma PaddedFilter<C(!new)>(o: Ops<C>, h: seq<C>, input: seq<C>, factor: nat, position: nat, taps: nat)
    requires Semiring(o) && factor > 0 && taps == CeilDiv(|h|, factor)
    ensures FullFilter(o, h, input, factor, position)
      == Sum(o, Area(taps, factor), FilterTerm(o, h, input, factor, position))
  {
    CeilDivLeast(|h|, factor, taps);
    hide CeilDiv, ZeroStuffed, Area;
    SumPads(o, |h|, Area(taps, factor), FilterTerm(o, h, input, factor, position));
  }

  lemma SumOfPhases<C(!new)>(o: Ops<C>, h: seq<C>, input: seq<C>, factor: nat, position: nat, taps: nat)
    requires Semiring(o) && factor > 0
    ensures Sum(o, Area(taps, factor), FilterTerm(o, h, input, factor, position))
      == Sum(o, taps, TapTerm(o, h, input, factor, position))
  {
    hide FilterTerm, TapTerm;
    var term := FilterTerm(o, h, input, factor, position);
    SumBlocks(o, factor, taps, term);
    var blocks := (tap: nat) => Sum(o, factor, (p: nat) => term(p + tap * factor));
    forall tap: nat | tap < taps ensures blocks(tap) == TapTerm(o, h, input, factor, position)(tap) {
      OnePhase(o, h, input, factor, position, tap);
    }
    SumCongruent(o, taps, blocks, TapTerm(o, h, input, factor, position));
    assert factor * taps == Area(taps, factor);
  }

  lemma OnePhase<C(!new)>(o: Ops<C>, h: seq<C>, input: seq<C>, factor: nat, position: nat, tap: nat)
    requires Semiring(o) && factor > 0
    ensures Sum(o, factor, (p: nat) => FilterTerm(o, h, input, factor, position)(p + tap * factor))
         == TapTerm(o, h, input, factor, position)(tap)
  {
    var term := FilterTerm(o, h, input, factor, position);
    var block := (p: nat) => term(p + tap * factor);
    forall p: nat | p < factor && p != position % factor ensures block(p) == o.zero {
      OffPhaseVanishes(o, h, input, factor, position, tap, p);
      assert p + tap * factor == Cell(tap, p, factor);
    }
    SumSingle(o, factor, position % factor, block);
    assert position % factor + tap * factor == Cell(tap, position % factor, factor);
  }
}
