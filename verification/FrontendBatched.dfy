/** The frontend over all frames at once, and its agreement with the frame-by-frame path. */
module FrontendBatched {
  import opened BatchedFft
  import opened Fft
  import opened Frontend
  import opened Grids
  import opened RealFft
  import opened Results

  // ---- Packing ----------------------------------------------------------------------

  /** The packed windowed sample `i` of frame `f`. */
  function PackedAt<T>(p: Processor<T>, input: seq<T>, frames: nat, f: nat, i: nat): Complex<T>
    requires ValidProcessor(p) && FramesFit(p, input, frames) && f < frames && i < p.plan.half.length
  {
    PlanLength(p);
    Packed(Windowed(p, FrameOf(p, input, f)))[i]
  }

  /** Which cells of the planes are filled: all of the first `count` frames and the first `rows` rows of the next. */
  predicate Filled<T(==)>(p: Processor<T>, input: seq<T>, frames: nat, re: seq<T>, im: seq<T>, count: nat, rows: nat)
    requires ValidProcessor(p) && FramesFit(p, input, frames) && rows <= p.plan.half.length
    requires |re| == |im| == Area(p.plan.half.length, frames)
  {
    forall f: nat, i: nat :: f < frames && i < p.plan.half.length && (f < count || (f == count && i < rows)) ==>
      FrameAt(re, im, frames, f, p.plan.half.length, i) == PackedAt(p, input, frames, f, i)
  }

  method PackFrames<T(==)>(p: Processor<T>, input: seq<T>, frames: nat, re: array<T>, im: array<T>)
    requires ValidProcessor(p) && FramesFit(p, input, frames) && Planes(re, im, p.plan.half.length, frames)
    modifies re, im
    ensures Filled(p, input, frames, re[..], im[..], frames, 0)
  {
    hide Cell, Area, PackedAt, ValidProcessor;
    var length := p.plan.half.length;
    CellsInjective(length, frames);
    for f := 0 to frames
      invariant Filled(p, input, frames, re[..], im[..], f, 0)
    {
      for i := 0 to length
        invariant Filled(p, input, frames, re[..], im[..], f, i)
      {
        PackedFrom(p, input, frames, f, i);
        var left, target := Area(f, p.hopLength) + 2 * i, Cell(i, f, frames);
        re[target] := p.s.mul(input[left], p.window[2 * i]);
        im[target] := p.s.mul(input[left + 1], p.window[2 * i + 1]);
      }
    }
  }

  lemma PackedFrom<T>(p: Processor<T>, input: seq<T>, frames: nat, f: nat, i: nat)
    requires ValidProcessor(p) && FramesFit(p, input, frames) && f < frames && i < p.plan.half.length
    ensures var left := Area(f, p.hopLength) + 2 * i;
      && left + 1 < |input| && 2 * i + 1 < |p.window|
      && PackedAt(p, input, frames, f, i)
           == Complex(p.s.mul(input[left], p.window[2 * i]), p.s.mul(input[left + 1], p.window[2 * i + 1]))
  {
    hide Area, RealShapes;
    PlanLength(p);
  }

  lemma FilledFrames<T>(p: Processor<T>, input: seq<T>, frames: nat, re: seq<T>, im: seq<T>)
    requires ValidProcessor(p) && FramesFit(p, input, frames)
    requires |re| == |im| == Area(p.plan.half.length, frames) && Filled(p, input, frames, re, im, frames, 0)
    ensures forall f: nat :: f < frames ==>
      Frame(re, im, frames, f, p.plan.half.length) == Packed(Windowed(p, FrameOf(p, input, f)))
  {
    hide Area, FrameAt, FrameOf, Windowed, RealShapes;
    PlanLength(p);
    forall f: nat | f < frames
      ensures Frame(re, im, frames, f, p.plan.half.length) == Packed(Windowed(p, FrameOf(p, input, f)))
    {
      forall i: nat | i < p.plan.half.length
        ensures Frame(re, im, frames, f, p.plan.half.length)[i] == Packed(Windowed(p, FrameOf(p, input, f)))[i]
      {
        assert FrameAt(re, im, frames, f, p.plan.half.length, i) == PackedAt(p, input, frames, f, i);
      }
    }
  }

  // ---- Band energies ----------------------------------------------------------------

  /** The power plane holds the scalar kernel's power of every frame. */
  predicate PowersAre<T(==)>(p: Processor<T>, input: seq<T>, frames: nat, power: seq<T>)
    requires ValidProcessor(p) && FramesFit(p, input, frames)
  {
    && |power| == Area(p.plan.half.length + 1, frames)
    && forall k: nat, f: nat :: k <= p.plan.half.length && f < frames ==>
         Cell(k, f, frames) < |power| && power[Cell(k, f, frames)] == FramePower(p, FrameOf(p, input, f))[k]
  }

  function EnergyOf<T>(p: Processor<T>, input: seq<T>, frames: nat, f: nat, m: nat, count: nat): T
    requires ValidProcessor(p) && FramesFit(p, input, frames) && f < frames && m < |p.bands|
      && count <= |p.bands[m].weights|
  {
    Energy(p.s, FramePower(p, FrameOf(p, input, f)), p.bands[m], count)
  }

  /** Row `m` holds the energies over `count` weights, one more in the first `done` frames. */
  predicate EnergyRow<T(==)>(p: Processor<T>, input: seq<T>, frames: nat, output: seq<T>, m: nat, count: nat, done: nat)
    requires ValidProcessor(p) && FramesFit(p, input, frames) && m < |p.bands|
    requires count < |p.bands[m].weights| || (count == |p.bands[m].weights| && done == 0)
    requires |output| == Area(|p.bands|, frames)
  {
    forall f: nat :: f < frames ==>
      Cell(m, f, frames) < |output| &&
      output[Cell(m, f, frames)] == EnergyOf(p, input, frames, f, m, if f < done then count + 1 else count)
  }

  /** Only row `m` differs. */
  predicate OtherRowsKept<T(==)>(was: seq<T>, now: seq<T>, rows: nat, frames: nat, m: nat)
    requires |was| == |now| == Area(rows, frames)
  {
    forall r: nat, f: nat :: r < rows && r != m && f < frames ==>
      Cell(r, f, frames) < |now| && now[Cell(r, f, frames)] == was[Cell(r, f, frames)]
  }

  lemma EnergyStep<T>(p: Processor<T>, input: seq<T>, frames: nat, power: seq<T>, values: seq<T>, m: nat, count: nat,
                      f: nat,
                      start: seq<T>, value: T, next: seq<T>)
    requires ValidProcessor(p) && FramesFit(p, input, frames) && m < |p.bands| && count < |p.bands[m].weights|
      && f < frames
    requires |values| == |start| == Area(|p.bands|, frames) && PowersAre(p, input, frames, power)
    requires EnergyRow(p, input, frames, values, m, count, f) && OtherRowsKept(start, values, |p.bands|, frames, m)
    requires BandCell(p, frames, power, m, count, f)
    requires Cell(m, f, frames) < |values|
    requires value == p.s.add(values[Cell(m, f, frames)],
                              p.s.mul(power[Cell(p.bands[m].first + count, f, frames)], p.bands[m].weights[count]))
    requires next == values[Cell(m, f, frames) := value]
    ensures EnergyRow(p, input, frames, next, m, count, f + 1) && OtherRowsKept(start, next, |p.bands|, frames, m)
  {
    hide Cell, Area, FramePower, FrameOf, RealShapes;
    CellsInjective(|p.bands|, frames);
    EnergyGrows(p, input, frames, f, m, count);
    assert power[Cell(p.bands[m].first + count, f, frames)]
      == FramePower(p, FrameOf(p, input, f))[p.bands[m].first + count];
    hide EnergyOf, PowersAre;
  }

  predicate BandCell<T>(p: Processor<T>, frames: nat, power: seq<T>, m: nat, count: nat, f: nat)
    requires m < |p.bands|
  {
    Cell(p.bands[m].first + count, f, frames) < |power|
  }

  lemma EnergyGrows<T>(p: Processor<T>, input: seq<T>, frames: nat, f: nat, m: nat, count: nat)
    requires ValidProcessor(p) && FramesFit(p, input, frames) && f < frames && m < |p.bands|
      && count < |p.bands[m].weights|
    ensures p.bands[m].first + count < |FramePower(p, FrameOf(p, input, f))|
    ensures EnergyOf(p, input, frames, f, m, count + 1) ==
      p.s.add(EnergyOf(p, input, frames, f, m, count),
              p.s.mul(FramePower(p, FrameOf(p, input, f))[p.bands[m].first + count], p.bands[m].weights[count]))
  {
    hide Area, FramePower, FrameOf, RealShapes;
  }

  method AddWeight<T(==)>(p: Processor<T>, ghost input: seq<T>, frames: nat, power: array<T>, output: array<T>, m: nat,
                          offset: nat)
    requires ValidProcessor(p) && FramesFit(p, input, frames) && m < |p.bands| && offset < |p.bands[m].weights|
    requires power != output && output.Length == Area(|p.bands|, frames) && PowersAre(p, input, frames, power[..])
    requires EnergyRow(p, input, frames, output[..], m, offset, 0)
    modifies output
    ensures EnergyRow(p, input, frames, output[..], m, offset + 1, 0)
    ensures OtherRowsKept(old(output[..]), output[..], |p.bands|, frames, m)
  {
    hide Cell, Area, FramesFit, RealShapes, EnergyRow, OtherRowsKept, PowersAre;
    CellsInjective(|p.bands|, frames);
    CellsInjective(p.plan.half.length + 1, frames);
    PowersLength(p, input, frames, power[..]);
    var bin, weight := p.bands[m].first + offset, p.bands[m].weights[offset];
    ghost var start := output[..];
    KeptSelf(start, |p.bands|, frames, m);
    for f := 0 to frames
      invariant EnergyRow(p, input, frames, output[..], m, offset, f)
      invariant OtherRowsKept(start, output[..], |p.bands|, frames, m)
    {
      ghost var values := output[..];
      var at := Cell(m, f, frames);
      var value := p.s.add(output[at], p.s.mul(power[Cell(bin, f, frames)], weight));
      output[at] := value;
      EnergyStep(p, input, frames, power[..], values, m, offset, f, start, value, output[..]);
    }
    EnergyRolls(p, input, frames, output[..], m, offset);
  }

  lemma PowersLength<T>(p: Processor<T>, input: seq<T>, frames: nat, power: seq<T>)
    requires ValidProcessor(p) && FramesFit(p, input, frames) && PowersAre(p, input, frames, power)
    ensures |power| == Area(p.plan.half.length + 1, frames)
  {
  }

  lemma KeptSelf<T>(start: seq<T>, rows: nat, frames: nat, m: nat)
    requires |start| == Area(rows, frames)
    ensures OtherRowsKept(start, start, rows, frames, m)
  {
    hide Cell, Area;
    CellsInjective(rows, frames);
  }

  lemma EnergyRolls<T>(p: Processor<T>, input: seq<T>, frames: nat, output: seq<T>, m: nat, count: nat)
    requires ValidProcessor(p) && FramesFit(p, input, frames) && m < |p.bands| && count < |p.bands[m].weights|
    requires |output| == Area(|p.bands|, frames) && EnergyRow(p, input, frames, output, m, count, frames)
    ensures EnergyRow(p, input, frames, output, m, count + 1, 0)
  {
    hide Cell, Area, FramesFit, RealShapes, EnergyOf;
  }

  // ---- Log-mel rows -----------------------------------------------------------------

  /** The first `count` cells of row `m` hold finite log-mel values, the others still the full energies. */
  predicate MelRow<T(==)>(p: Processor<T>, input: seq<T>, frames: nat, output: seq<T>, m: nat, count: nat)
    requires ValidProcessor(p) && FramesFit(p, input, frames) && m < |p.bands| && |output| == Area(|p.bands|, frames)
  {
    forall f: nat :: f < frames ==>
      && Cell(m, f, frames) < |output|
      && (if f < count then
            output[Cell(m, f, frames)] == MelOf(p, FrameOf(p, input, f), m) && p.s.finite(output[Cell(m, f, frames)])
          else output[Cell(m, f, frames)] == EnergyOf(p, input, frames, f, m, |p.bands[m].weights|))
  }

  lemma MelIsFinishedEnergy<T>(p: Processor<T>, input: seq<T>, frames: nat, f: nat, m: nat)
    requires ValidProcessor(p) && FramesFit(p, input, frames) && f < frames && m < |p.bands|
    ensures MelOf(p, FrameOf(p, input, f), m) == p.finish(EnergyOf(p, input, frames, f, m, |p.bands[m].weights|))
  {
  }

  lemma MelStep<T>(p: Processor<T>, input: seq<T>, frames: nat, values: seq<T>, m: nat, f: nat, start: seq<T>,
                   next: seq<T>)
    requires ValidProcessor(p) && FramesFit(p, input, frames) && m < |p.bands| && f < frames
    requires |values| == |start| == Area(|p.bands|, frames) && Cell(m, f, frames) < |values|
    requires MelRow(p, input, frames, values, m, f) && OtherRowsKept(start, values, |p.bands|, frames, m)
    requires next == values[Cell(m, f, frames) := p.finish(values[Cell(m, f, frames)])]
    ensures next[Cell(m, f, frames)] == MelOf(p, FrameOf(p, input, f), m)
    ensures p.s.finite(next[Cell(m, f, frames)]) ==>
      MelRow(p, input, frames, next, m, f + 1) && OtherRowsKept(start, next, |p.bands|, frames, m)
  {
    CellsInjective(|p.bands|, frames);
    MelIsFinishedEnergy(p, input, frames, f, m);
    hide Cell, Area, MelOf, EnergyOf, FrameOf, RealShapes;
  }

  /** Clamps and takes logarithms along one row; refuses a value that is not finite. */
  method FinishRow<T(==)>(p: Processor<T>, ghost input: seq<T>, frames: nat, output: array<T>, m: nat)
    returns (finite: bool)
    requires ValidProcessor(p) && FramesFit(p, input, frames) && m < |p.bands|
      && output.Length == Area(|p.bands|, frames)
    requires MelRow(p, input, frames, output[..], m, 0)
    modifies output
    ensures finite ==> MelRow(p, input, frames, output[..], m, frames)
    ensures finite ==> OtherRowsKept(old(output[..]), output[..], |p.bands|, frames, m)
    ensures !finite ==> !MelsFinite(p, input, frames)
  {
    hide Cell, Area, RealShapes, MelRow, OtherRowsKept, MelOf, FrameOf, ValidProcessor;
    CellsInjective(|p.bands|, frames);
    ghost var start := output[..];
    KeptSelf(start, |p.bands|, frames, m);
    for f := 0 to frames
      invariant MelRow(p, input, frames, output[..], m, f)
      invariant OtherRowsKept(start, output[..], |p.bands|, frames, m)
    {
      ghost var values := output[..];
      var at := Cell(m, f, frames);
      output[at] := p.finish(output[at]);
      MelStep(p, input, frames, values, m, f, start, output[..]);
      if !p.s.finite(output[at]) {
        assert output[..][at] == MelOf(p, FrameOf(p, input, f), m);
        return false;
      }
    }
    finite := true;
  }

  method BandRow<T(==)>(p: Processor<T>, ghost input: seq<T>, frames: nat, power: array<T>, output: array<T>, m: nat)
    returns (finite: bool)
    requires ValidProcessor(p) && FramesFit(p, input, frames) && m < |p.bands|
    requires power != output && output.Length == Area(|p.bands|, frames) && PowersAre(p, input, frames, power[..])
    requires EnergyRow(p, input, frames, output[..], m, 0, 0)
    modifies output
    ensures finite ==> MelRow(p, input, frames, output[..], m, frames)
    ensures finite ==> OtherRowsKept(old(output[..]), output[..], |p.bands|, frames, m)
    ensures !finite ==> !MelsFinite(p, input, frames)
  {
    hide Cell, Area, RealShapes, MelRow, OtherRowsKept, EnergyRow, PowersAre, MelsFinite, ValidProcessor;
    ghost var start := output[..];
    KeptSelf(start, |p.bands|, frames, m);
    for offset := 0 to |p.bands[m].weights|
      invariant EnergyRow(p, input, frames, output[..], m, offset, 0)
      invariant OtherRowsKept(start, output[..], |p.bands|, frames, m)
    {
      ghost var values := output[..];
      AddWeight(p, input, frames, power, output, m, offset);
      KeptTransitive(start, values, output[..], |p.bands|, frames, m);
    }
    ghost var energies := output[..];
    FullEnergies(p, input, frames, output[..], m);
    finite := FinishRow(p, input, frames, output, m);
    if finite { KeptTransitive(start, energies, output[..], |p.bands|, frames, m); }
  }

  lemma KeptTransitive<T>(a: seq<T>, b: seq<T>, c: seq<T>, rows: nat, frames: nat, m: nat)
    requires |a| == |b| == |c| == Area(rows, frames)
    requires OtherRowsKept(a, b, rows, frames, m) && OtherRowsKept(b, c, rows, frames, m)
    ensures OtherRowsKept(a, c, rows, frames, m)
  {
    hide Cell, Area;
  }

  lemma FullEnergies<T>(p: Processor<T>, input: seq<T>, frames: nat, output: seq<T>, m: nat)
    requires ValidProcessor(p) && FramesFit(p, input, frames) && m < |p.bands| && |output| == Area(|p.bands|, frames)
    requires EnergyRow(p, input, frames, output, m, |p.bands[m].weights|, 0)
    ensures MelRow(p, input, frames, output, m, 0)
  {
    hide Cell, Area, EnergyOf, RealShapes, MelOf;
  }

  /** Rows below `m` are finished, the others still zero. */
  ghost predicate RowsAt<T>(p: Processor<T>, input: seq<T>, frames: nat, output: seq<T>, m: nat)
    requires ValidProcessor(p) && FramesFit(p, input, frames) && |output| == Area(|p.bands|, frames)
  {
    forall r: nat :: r < |p.bands| ==>
      if r < m then MelRow(p, input, frames, output, r, frames)
      else EnergyRow(p, input, frames, output, r, 0, 0)
  }

  lemma RowsAdvance<T>(p: Processor<T>, input: seq<T>, frames: nat, was: seq<T>, now: seq<T>, m: nat)
    requires ValidProcessor(p) && FramesFit(p, input, frames) && m < |p.bands|
      && |was| == |now| == Area(|p.bands|, frames)
    requires RowsAt(p, input, frames, was, m) && MelRow(p, input, frames, now, m, frames)
    requires OtherRowsKept(was, now, |p.bands|, frames, m)
    ensures RowsAt(p, input, frames, now, m + 1)
  {
    hide Cell, Area, EnergyOf, RealShapes, MelOf, FrameOf;
    forall r: nat | r < |p.bands| && r != m
      ensures if r < m then MelRow(p, input, frames, now, r, frames) else EnergyRow(p, input, frames, now, r, 0, 0)
    {
      assert if r < m then MelRow(p, input, frames, was, r, frames) else EnergyRow(p, input, frames, was, r, 0, 0);
    }
  }

  lemma AllRows<T>(p: Processor<T>, input: seq<T>, frames: nat, output: seq<T>)
    requires ValidProcessor(p) && FramesFit(p, input, frames) && |output| == Area(|p.bands|, frames)
    requires RowsAt(p, input, frames, output, |p.bands|)
    ensures MatrixIs(p, input, frames, output) && MelsFinite(p, input, frames)
  {
    hide Cell, Area, EnergyOf, RealShapes, MelOf, FrameOf;
    forall m: nat, f: nat | m < |p.bands| && f < frames
      ensures Cell(m, f, frames) < |output| && output[Cell(m, f, frames)] == MelOf(p, FrameOf(p, input, f), m)
      ensures p.s.finite(MelOf(p, FrameOf(p, input, f), m))
    {
      assert MelRow(p, input, frames, output, m, frames);
    }
  }

  lemma ZeroRows<T>(p: Processor<T>, input: seq<T>, frames: nat, output: seq<T>)
    requires ValidProcessor(p) && FramesFit(p, input, frames) && |output| == Area(|p.bands|, frames)
    requires forall i :: 0 <= i < |output| ==> output[i] == p.s.zero
    ensures RowsAt(p, input, frames, output, 0)
  {
    hide Cell, Area, RealShapes;
    CellsInjective(|p.bands|, frames);
    hide FrameOf, FramePower;
    forall r: nat | r < |p.bands| ensures EnergyRow(p, input, frames, output, r, 0, 0) {
    }
  }

  method LogMelBands<T(==)>(p: Processor<T>, ghost input: seq<T>, frames: nat, power: array<T>, output: array<T>)
    returns (r: Result<(), FrontendError>)
    requires ValidProcessor(p) && FramesFit(p, input, frames)
    requires power != output && output.Length == Area(|p.bands|, frames) && PowersAre(p, input, frames, power[..])
    requires forall i :: 0 <= i < output.Length ==> output[i] == p.s.zero
    modifies output
    ensures r.Ok? <==> MelsFinite(p, input, frames)
    ensures r.Ok? ==> MatrixIs(p, input, frames, output[..])
  {
    hide Cell, Area, RealShapes, MelRow, OtherRowsKept, EnergyRow, PowersAre, MelsFinite, MatrixIs, ValidProcessor;
    ZeroRows(p, input, frames, output[..]);
    for m := 0 to |p.bands|
      invariant RowsAt(p, input, frames, output[..], m)
    {
      ghost var was := output[..];
      var finite := BandRow(p, input, frames, power, output, m);
      if !finite { return Err(LogMelNotFinite); }
      RowsAdvance(p, input, frames, was, output[..], m);
    }
    AllRows(p, input, frames, output[..]);
    r := Ok(());
  }

  lemma PowersFrom<T>(p: Processor<T>, input: seq<T>, frames: nat, re: seq<T>, im: seq<T>, power: seq<T>)
    requires ValidProcessor(p) && FramesFit(p, input, frames)
    requires |re| == |im| == Area(p.plan.half.length, frames) && |power| == Area(p.plan.half.length + 1, frames)
    requires Filled(p, input, frames, re, im, frames, 0) && PowersDone(p.s, p.plan, power, (re, im), frames)
    ensures PowersAre(p, input, frames, power)
  {
    hide Cell, Area, PowerAt, Filled;
    FilledFrames(p, input, frames, re, im);
    forall k: nat, f: nat | k <= p.plan.half.length && f < frames
      ensures Cell(k, f, frames) < |power| && power[Cell(k, f, frames)] == FramePower(p, FrameOf(p, input, f))[k]
    {
      assert PowerRow(p.s, p.plan, power, (re, im), frames, k, frames);
    }
  }

  /** The plane sizes are representable. */
  predicate BatchedFits<T>(p: Processor<T>, frames: nat) {
    && Area(p.plan.half.length, frames) <= USIZE_MAX && Area(p.plan.half.length + 1, frames) <= USIZE_MAX
    && Area(|p.bands|, frames) <= USIZE_MAX
  }

  /** What the batched path answers: no windowed sample is checked. */
  ghost predicate BatchedIs<T>(p: Processor<T>, samples: seq<T>, r: Result<Features<T>, FrontendError>)
    requires ValidProcessor(p)
  {
    var frames := FrameCount(p, |samples|);
    if frames == 0 then r == Ok(Features(|p.bands|, 0, []))
    else if p.centered && |samples| <= p.fftLength / 2 then r == Err(TooShort)
    else if !BatchedFits(p, frames) then r == Err(FrontendError.Overflow)
    else
      CountedFramesFit(p, samples);
      var input := CenteredInput(p, samples);
      && (r.Ok? <==> MelsFinite(p, input, frames))
      && (r.Ok? ==> r.value.mels == |p.bands| && r.value.frames == frames
                    && MatrixIs(p, input, frames, r.value.values))
  }

  method ComputePowers<T(0,==)>(p: Processor<T>, input: seq<T>, frames: nat) returns (power: array<T>)
    requires ValidProcessor(p) && FramesFit(p, input, frames) && BatchedFits(p, frames)
    ensures fresh(power) && PowersAre(p, input, frames, power[..])
  {
    hide Cell, Area, RealShapes, Filled, PowersDone, PowersAre;
    var length := p.plan.half.length;
    var size := Area(length, frames);
    var re, im := new T[size](_ => p.s.zero), new T[size](_ => p.s.zero);
    PackFrames(p, input, frames, re, im);
    ghost var packed := (re[..], im[..]);
    var scratchReal, scratchImaginary := new T[size](_ => p.s.zero), new T[size](_ => p.s.zero);
    power := new T[Area(length + 1, frames)](_ => p.s.zero);
    var done := ComputePowerSpectrumBatched(p.s, p.plan, re, im, scratchReal, scratchImaginary, power, frames);
    PowersFrom(p, input, frames, packed.0, packed.1, power[..]);
  }

  method LogMelBatched<T(0,==)>(p: Processor<T>, samples: seq<T>)
    returns (r: Result<Features<T>, FrontendError>)
    requires ValidProcessor(p)
    ensures BatchedIs(p, samples, r)
    ensures r.Ok? ==> FeaturesAre(p, samples, r.value)
  {
    hide Area, MelsFinite, MatrixIs, FramesFit, FrameCount, CenteredInput, PowersAre, FeaturesAre;
    var frames := FrameCount(p, |samples|);
    if frames == 0 {
      FeaturesOf(p, samples, Features(|p.bands|, 0, []));
      return Ok(Features(|p.bands|, 0, []));
    }
    var centered := Center(p, samples);
    if centered.Err? { return Err(centered.error); }
    CountedFramesFit(p, samples);
    var packed, outputs := CheckedProduct(p.plan.half.length, frames), CheckedProduct(|p.bands|, frames);
    var powers := CheckedProduct(p.plan.half.length + 1, frames);
    if packed.Err? || outputs.Err? || powers.Err? { return Err(FrontendError.Overflow); }
    var power := ComputePowers(p, centered.value, frames);
    var output := new T[outputs.value](_ => p.s.zero);
    var done := LogMelBands(p, centered.value, frames, power, output);
    if done.Err? { return Err(done.error); }
    r := Ok(Features(|p.bands|, frames, output[..]));
    FeaturesOf(p, samples, r.value);
  }

  /** Every windowed sample of every frame is finite. */
  predicate WindowingStaysFinite<T>(p: Processor<T>, samples: seq<T>)
    requires ValidProcessor(p) && (p.centered ==> |samples| > p.fftLength / 2)
  {
    CountedFramesFit(p, samples);
    WindowedFinite(p, CenteredInput(p, samples), FrameCount(p, |samples|))
  }

  ghost predicate Agreement<T>(p: Processor<T>, samples: seq<T>, scalar: Result<Features<T>, FrontendError>,
                               batched: Result<Features<T>, FrontendError>)
    requires ValidProcessor(p)
  {
    if FrameCount(p, |samples|) == 0 || (p.centered && |samples| <= p.fftLength / 2) then scalar == batched
    else if WindowingStaysFinite(p, samples) then scalar.Ok? == batched.Ok? && (scalar.Ok? ==> scalar == batched)
    else scalar.Err?
  }

  /** The two paths agree bit for bit whenever every windowed sample is finite (and the planes are representable);
      on a frame with a non-finite windowed sample the scalar path refuses. */
  lemma PathsAgree<T>(p: Processor<T>, samples: seq<T>, scalar: Result<Features<T>, FrontendError>,
                      batched: Result<Features<T>, FrontendError>)
    requires ValidProcessor(p) && ScalarIs(p, samples, scalar) && BatchedIs(p, samples, batched)
    requires BatchedFits(p, FrameCount(p, |samples|))
    ensures Agreement(p, samples, scalar, batched)
  {
    hide Area, Cell, MelOf, WindowedFinite, MelsFinite, FrameOf, CenteredInput;
    var frames := FrameCount(p, |samples|);
    if scalar.Ok? && batched.Ok? && frames > 0 && !(p.centered && |samples| <= p.fftLength / 2) {
      CountedFramesFit(p, samples);
      SameMatrix(p, CenteredInput(p, samples), frames, scalar.value.values, batched.value.values);
    }
  }

  lemma SameMatrix<T>(p: Processor<T>, input: seq<T>, frames: nat, a: seq<T>, b: seq<T>)
    requires ValidProcessor(p) && FramesFit(p, input, frames) && MatrixIs(p, input, frames, a)
      && MatrixIs(p, input, frames, b)
    ensures a == b
  {
    hide Area, Cell, MelOf, FrameOf, RealShapes;
    forall i | 0 <= i < |a| ensures a[i] == b[i] {
      CellEncodes(i, |p.bands|, frames);
      assert a[Cell(i / frames, i % frames, frames)] == MelOf(p, FrameOf(p, input, i % frames), i / frames);
    }
  }

  datatype Mode = Scalar | Batched

  method LogMel<T(0,==)>(p: Processor<T>, mode: Mode, samples: seq<T>)
    returns (r: Result<Features<T>, FrontendError>)
    requires ValidProcessor(p)
    ensures !SamplesFinite(p.s, samples) ==> r == Err(NotFinite)
    ensures SamplesFinite(p.s, samples) ==> if mode.Scalar? then ScalarIs(p, samples, r) else BatchedIs(p, samples, r)
    ensures r.Ok? ==> FeaturesAre(p, samples, r.value)
  {
    hide ScalarIs, BatchedIs, ValidProcessor, FeaturesAre;
    var finite := CheckFinite(p.s, samples);
    if !finite { return Err(NotFinite); }
    match mode {
      case Scalar => r := LogMelScalar(p, samples);
      case Batched => r := LogMelBatched(p, samples);
    }
  }
}
