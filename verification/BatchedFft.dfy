/** The batched kernels work on split real and imaginary planes holding `frames` columns.  Each
    column comes out exactly as the scalar kernel computes it, operation for operation: nothing
    is assumed about the scalar arithmetic. */
module BatchedFft {
  import opened Fft
  import opened FftKernel
  import opened Grids
  import opened RealFft
  import opened Results

  /** Column `frame` of two planes. */
  function Frame<T>(re: seq<T>, im: seq<T>, frames: nat, frame: nat, length: nat): (z: seq<Complex<T>>)
    requires |re| == |im| == Area(length, frames) && frame < frames
    ensures |z| == length
  {
    seq(length, i requires 0 <= i < length => FrameAt(re, im, frames, frame, length, i))
  }

  function FrameAt<T>(re: seq<T>, im: seq<T>, frames: nat, frame: nat, length: nat, i: nat): Complex<T>
    requires |re| == |im| == Area(length, frames) && frame < frames && i < length
  {
    CellInRange(i, frame, length, frames);
    Complex(re[Cell(i, frame, frames)], im[Cell(i, frame, frames)])
  }

  /** Two planes of equal shape. */
  predicate Planes<T>(re: array<T>, im: array<T>, length: nat, frames: nat)
    reads re, im
  {
    re != im && re.Length == im.Length == Area(length, frames)
  }

  lemma CellsInjective(length: nat, frames: nat)
    ensures forall a: nat, b: nat, c: nat, d: nat ::
              b < frames && d < frames && Cell(a, b, frames) == Cell(c, d, frames) ==> a == c && b == d
    ensures forall a: nat, b: nat :: a < length && b < frames ==> Cell(a, b, frames) < Area(length, frames)
  {
    hide Cell, Area;
    forall a: nat, b: nat, c: nat, d: nat | b < frames && d < frames && Cell(a, b, frames) == Cell(c, d, frames)
      ensures a == c && b == d
    {
      CellDecodes(a, b, frames);
      CellDecodes(c, d, frames);
    }
    forall a: nat, b: nat | a < length && b < frames ensures Cell(a, b, frames) < Area(length, frames) {
      CellInRange(a, b, length, frames);
    }
  }

  /** The four planes of a transform: two sources and two destinations, all distinct. */
  predicate FourPlanes<T>(sre: array<T>, sim: array<T>, dre: array<T>, dim: array<T>, length: nat, frames: nat)
    reads sre, sim, dre, dim
  {
    && Planes(sre, sim, length, frames) && Planes(dre, dim, length, frames)
    && {sre, sim} !! {dre, dim}
  }

  /** Row `row` is the only one to differ between two states of a pair of planes. */
  ghost predicate OnlyRow<T>(re: seq<T>, im: seq<T>, re': seq<T>, im': seq<T>, length: nat, frames: nat, row: nat)
    requires |re| == |im| == |re'| == |im'| == Area(length, frames)
  {
    forall i: nat, f: nat :: i < length && f < frames && i != row ==>
      FrameAt(re', im', frames, f, length, i) == FrameAt(re, im, frames, f, length, i)
  }

  method CopyRow<T>(sre: array<T>, sim: array<T>, dre: array<T>, dim: array<T>, length: nat, frames: nat,
                    input: nat, output: nat)
    requires FourPlanes(sre, sim, dre, dim, length, frames) && input < length && output < length
    modifies dre, dim
    ensures OnlyRow(old(dre[..]), old(dim[..]), dre[..], dim[..], length, frames, output)
    ensures forall f: nat :: f < frames ==>
              FrameAt(dre[..], dim[..], frames, f, length, output)
                == FrameAt(sre[..], sim[..], frames, f, length, input)
  {
    hide Cell, Area;
    CellsInjective(length, frames);
    for f := 0 to frames
      invariant OnlyRow(old(dre[..]), old(dim[..]), dre[..], dim[..], length, frames, output)
      invariant forall g: nat :: g < f ==>
                  FrameAt(dre[..], dim[..], frames, g, length, output)
                    == FrameAt(sre[..], sim[..], frames, g, length, input)
    {
      dre[Cell(output, f, frames)] := sre[Cell(input, f, frames)];
      dim[Cell(output, f, frames)] := sim[Cell(input, f, frames)];
    }
  }

  /** Adds `source * root` to every frame of a destination row, component by component. */
  method AccumulateRow<T>(s: Scalars<T>, sre: array<T>, sim: array<T>, dre: array<T>, dim: array<T>,
                          length: nat, frames: nat, input: nat, output: nat, root: Complex<T>)
    requires FourPlanes(sre, sim, dre, dim, length, frames) && input < length && output < length
    modifies dre, dim
    ensures OnlyRow(old(dre[..]), old(dim[..]), dre[..], dim[..], length, frames, output)
    ensures forall f: nat :: f < frames ==>
              FrameAt(dre[..], dim[..], frames, f, length, output)
              == Add(s, FrameAt(old(dre[..]), old(dim[..]), frames, f, length, output),
                     Multiply(s, FrameAt(sre[..], sim[..], frames, f, length, input), root))
  {
    hide Cell, Area;
    CellsInjective(length, frames);
    ghost var before := (dre[..], dim[..]);
    for f := 0 to frames
      invariant OnlyRow(before.0, before.1, dre[..], dim[..], length, frames, output)
      invariant forall g: nat :: g < frames ==>
                  FrameAt(dre[..], dim[..], frames, g, length, output)
                  == if g < f then Add(s, FrameAt(before.0, before.1, frames, g, length, output),
                                       Multiply(s, FrameAt(sre[..], sim[..], frames, g, length, input), root))
                     else FrameAt(before.0, before.1, frames, g, length, output)
    {
      var i, j := Cell(input, f, frames), Cell(output, f, frames);
      var sourceRe, sourceIm := sre[i], sim[i];
      dre[j] := s.add(dre[j], s.sub(s.mul(sourceRe, root.re), s.mul(sourceIm, root.im)));
      dim[j] := s.add(dim[j], s.add(s.mul(sourceRe, root.im), s.mul(sourceIm, root.re)));
    }
  }

  method ScaleRow<T>(s: Scalars<T>, dre: array<T>, dim: array<T>, length: nat, frames: nat, output: nat,
                     twiddle: Complex<T>)
    requires Planes(dre, dim, length, frames) && output < length
    modifies dre, dim
    ensures OnlyRow(old(dre[..]), old(dim[..]), dre[..], dim[..], length, frames, output)
    ensures forall f: nat :: f < frames ==>
              FrameAt(dre[..], dim[..], frames, f, length, output)
              == Multiply(s, FrameAt(old(dre[..]), old(dim[..]), frames, f, length, output), twiddle)
  {
    hide Cell, Area;
    CellsInjective(length, frames);
    ghost var before := (dre[..], dim[..]);
    for f := 0 to frames
      invariant OnlyRow(before.0, before.1, dre[..], dim[..], length, frames, output)
      invariant forall g: nat :: g < frames ==>
                  FrameAt(dre[..], dim[..], frames, g, length, output)
                  == if g < f then Multiply(s, FrameAt(before.0, before.1, frames, g, length, output), twiddle)
                     else FrameAt(before.0, before.1, frames, g, length, output)
    {
      var j := Cell(output, f, frames);
      var valueRe, valueIm := dre[j], dim[j];
      dre[j] := s.sub(s.mul(valueRe, twiddle.re), s.mul(valueIm, twiddle.im));
      dim[j] := s.add(s.mul(valueRe, twiddle.im), s.mul(valueIm, twiddle.re));
    }
  }

  /** Row `i` of the destination holds the stage value of every frame. */
  ghost predicate RowDone<T>(s: Scalars<T>, st: Stage<Complex<T>>, sre: seq<T>, sim: seq<T>, dre: seq<T>, dim: seq<T>,
                             length: nat, frames: nat, i: nat)
    requires |sre| == |sim| == |dre| == |dim| == Area(length, frames)
    requires StageShape(st, length) && i < length
  {
    forall f: nat :: f < frames ==>
      FrameAt(dre, dim, frames, f, length, i) == StageAt(ComplexOps(s), st, Frame(sre, sim, frames, f, length), i)
  }

  /** The butterfly of every frame, summed over `count` lanes, sits in row `row`. */
  ghost predicate RowSummed<T>(s: Scalars<T>, st: Stage<Complex<T>>, sre: seq<T>, sim: seq<T>, dre: seq<T>, dim: seq<T>,
                               length: nat, frames: nat, group: nat, offset: nat, output: nat, count: nat, row: nat)
    requires |sre| == |sim| == |dre| == |dim| == Area(length, frames)
    requires InStage(st, length, group, offset, output) && row < length && 1 <= count <= st.radix
  {
    forall f: nat :: f < frames ==>
      FrameAt(dre, dim, frames, f, length, row)
      == Butterfly(ComplexOps(s), st, Frame(sre, sim, frames, f, length), group, offset, output, count)
  }

  lemma RowStarts<T>(s: Scalars<T>, st: Stage<Complex<T>>, sre: seq<T>, sim: seq<T>, dre: seq<T>, dim: seq<T>,
                     length: nat, frames: nat, group: nat, offset: nat, output: nat, row: nat)
    requires |sre| == |sim| == |dre| == |dim| == Area(length, frames)
    requires InStage(st, length, group, offset, output) && row < length && SourceIndex(st, group, offset, 0) < length
    requires forall f: nat :: f < frames ==>
               FrameAt(dre, dim, frames, f, length, row)
                 == FrameAt(sre, sim, frames, f, length, SourceIndex(st, group, offset, 0))
    ensures RowSummed(s, st, sre, sim, dre, dim, length, frames, group, offset, output, 1, row)
  {
    hide Cell, Area, SourceIndex, StageShape;
    forall f: nat | f < frames
      ensures FrameAt(dre, dim, frames, f, length, row)
           == Butterfly(ComplexOps(s), st, Frame(sre, sim, frames, f, length), group, offset, output, 1)
    {
      LaneIs(st, Frame(sre, sim, frames, f, length), group, offset, 0);
    }
  }

  lemma RowAccumulates<T>(s: Scalars<T>, st: Stage<Complex<T>>, sre: seq<T>, sim: seq<T>, was: (seq<T>, seq<T>),
                          dre: seq<T>, dim: seq<T>,
                          length: nat, frames: nat, group: nat, offset: nat, output: nat, t: nat, row: nat)
    requires |sre| == |sim| == |was.0| == |was.1| == |dre| == |dim| == Area(length, frames)
    requires InStage(st, length, group, offset, output) && row < length && 1 <= t < st.radix
    requires SourceIndex(st, group, offset, t) < length && Cell(t, output, st.radix) < |st.roots|
    requires RowSummed(s, st, sre, sim, was.0, was.1, length, frames, group, offset, output, t, row)
    requires forall f: nat :: f < frames ==>
               FrameAt(dre, dim, frames, f, length, row)
               == Add(s, FrameAt(was.0, was.1, frames, f, length, row),
                      Multiply(s, FrameAt(sre, sim, frames, f, length, SourceIndex(st, group, offset, t)),
                               st.roots[Cell(t, output, st.radix)]))
    ensures RowSummed(s, st, sre, sim, dre, dim, length, frames, group, offset, output, t + 1, row)
  {
    hide Cell, Area, SourceIndex, Multiply, Add;
    forall f: nat | f < frames
      ensures FrameAt(dre, dim, frames, f, length, row)
           == Butterfly(ComplexOps(s), st, Frame(sre, sim, frames, f, length), group, offset, output, t + 1)
    {
      LaneIs(st, Frame(sre, sim, frames, f, length), group, offset, t);
    }
  }

  /** One output of one group and offset, for every frame. */
  method RunOutput<T>(s: Scalars<T>, st: Stage<Complex<T>>, sre: array<T>, sim: array<T>, dre: array<T>, dim: array<T>,
                      length: nat, frames: nat, group: nat, offset: nat, output: nat)
    requires FourPlanes(sre, sim, dre, dim, length, frames) && InStage(st, length, group, offset, output)
    modifies dre, dim
    ensures DestinationIndex(st, group, offset, output) < length
    ensures OnlyRow(old(dre[..]), old(dim[..]), dre[..], dim[..], length, frames,
                    DestinationIndex(st, group, offset, output))
    ensures RowDone(s, st, sre[..], sim[..], dre[..], dim[..], length, frames,
                    DestinationIndex(st, group, offset, output))
  {
    hide Cell, Area, SourceIndex, DestinationIndex, FrameAt, Butterfly, StageAt, Multiply, Add, StageShape;
    ghost var re, im := sre[..], sim[..];
    var row := DestinationIndex(st, group, offset, output);
    DestinationDecodes(st, length, group, offset, output);
    SourceInRange(st, length, group, offset, 0);
    CopyRow(sre, sim, dre, dim, length, frames, SourceIndex(st, group, offset, 0), row);
    RowStarts(s, st, re, im, dre[..], dim[..], length, frames, group, offset, output, row);
    for t := 1 to st.radix
      invariant OnlyRow(old(dre[..]), old(dim[..]), dre[..], dim[..], length, frames, row)
      invariant RowSummed(s, st, re, im, dre[..], dim[..], length, frames, group, offset, output, t, row)
    {
      SourceInRange(st, length, group, offset, t);
      TablesInRange(st, length, group, offset, t, output);
      ghost var was := (dre[..], dim[..]);
      AccumulateRow(s, sre, sim, dre, dim, length, frames, SourceIndex(st, group, offset, t), row,
                    st.roots[Cell(t, output, st.radix)]);
      RowAccumulates(s, st, re, im, was, dre[..], dim[..], length, frames, group, offset, output, t, row);
    }
    TablesInRange(st, length, group, offset, output, output);
    ghost var was := (dre[..], dim[..]);
    ScaleRow(s, dre, dim, length, frames, row, st.twiddles[Cell(group, output, st.radix)]);
    forall f: nat | f < frames
      ensures FrameAt(dre[..], dim[..], frames, f, length, row)
        == StageAt(ComplexOps(s), st, Frame(re, im, frames, f, length), row)
    {
      SamePosition(ComplexOps(s), st, Frame(re, im, frames, f, length), group, offset, output);
    }
  }

  /** The rows of the first groups, of the first offsets of the next group, and of the first
      outputs of the next offset. */
  predicate Before<C>(st: Stage<C>, i: nat, group: nat, offset: nat, output: nat)
    requires st.radix > 0 && st.stride > 0
  {
    || GroupOf(st, i) < group
    || (GroupOf(st, i) == group && OffsetOf(st, i) < offset)
    || (GroupOf(st, i) == group && OffsetOf(st, i) == offset && OutputOf(st, i) < output)
  }

  ghost predicate RowsDone<T>(s: Scalars<T>, st: Stage<Complex<T>>, sre: seq<T>, sim: seq<T>, dre: seq<T>, dim: seq<T>,
                              length: nat, frames: nat, group: nat, offset: nat, output: nat)
    requires |sre| == |sim| == |dre| == |dim| == Area(length, frames)
    requires StageShape(st, length)
  {
    forall i: nat :: i < length && Before(st, i, group, offset, output) ==>
      RowDone(s, st, sre, sim, dre, dim, length, frames, i)
  }

  lemma RowsAdvance<T>(s: Scalars<T>, st: Stage<Complex<T>>, sre: seq<T>, sim: seq<T>, was: (seq<T>, seq<T>),
                       dre: seq<T>, dim: seq<T>,
                       length: nat, frames: nat, group: nat, offset: nat, output: nat)
    requires |sre| == |sim| == |was.0| == |was.1| == |dre| == |dim| == Area(length, frames)
    requires InStage(st, length, group, offset, output) && DestinationIndex(st, group, offset, output) < length
    requires RowsDone(s, st, sre, sim, was.0, was.1, length, frames, group, offset, output)
    requires OnlyRow(was.0, was.1, dre, dim, length, frames, DestinationIndex(st, group, offset, output))
    requires RowDone(s, st, sre, sim, dre, dim, length, frames, DestinationIndex(st, group, offset, output))
    ensures RowsDone(s, st, sre, sim, dre, dim, length, frames, group, offset, output + 1)
  {
    hide Cell, Area, DestinationIndex, GroupOf, OffsetOf, OutputOf, FrameAt, StageAt, Frame;
    var row := DestinationIndex(st, group, offset, output);
    forall i: nat | i < length && Before(st, i, group, offset, output + 1)
      ensures RowDone(s, st, sre, sim, dre, dim, length, frames, i)
    {
      DestinationEncodes(st, length, i);
      if i != row {
        assert RowDone(s, st, sre, sim, was.0, was.1, length, frames, i);
      }
    }
  }

  /** Reaching the end of a lane, an offset or a group. */
  lemma RowsRoll<T>(s: Scalars<T>, st: Stage<Complex<T>>, sre: seq<T>, sim: seq<T>, dre: seq<T>, dim: seq<T>,
                    length: nat, frames: nat, group: nat, offset: nat)
    requires |sre| == |sim| == |dre| == |dim| == Area(length, frames)
    requires StageShape(st, length)
    ensures RowsDone(s, st, sre, sim, dre, dim, length, frames, group, offset, st.radix)
         ==> RowsDone(s, st, sre, sim, dre, dim, length, frames, group, offset + 1, 0)
    ensures RowsDone(s, st, sre, sim, dre, dim, length, frames, group, st.stride, 0)
         ==> RowsDone(s, st, sre, sim, dre, dim, length, frames, group + 1, 0, 0)
    ensures RowsDone(s, st, sre, sim, dre, dim, length, frames, st.groups, 0, 0)
         ==> forall i: nat :: i < length ==> RowDone(s, st, sre, sim, dre, dim, length, frames, i)
    ensures RowsDone(s, st, sre, sim, dre, dim, length, frames, 0, 0, 0)
  {
    hide Cell, Area, GroupOf, OffsetOf, OutputOf, RowDone;
    CoordinatesBounded(st, length);
    OutputsBounded(st, length);
  }

  method RunBatchedStage<T>(s: Scalars<T>, st: Stage<Complex<T>>, sre: array<T>, sim: array<T>, dre: array<T>,
                            dim: array<T>,
                            length: nat, frames: nat)
    requires FourPlanes(sre, sim, dre, dim, length, frames) && StageShape(st, length)
    modifies dre, dim
    ensures forall f: nat :: f < frames ==>
              Frame(dre[..], dim[..], frames, f, length)
                == ApplyStage(ComplexOps(s), st, Frame(sre[..], sim[..], frames, f, length))
  {
    hide Cell, Area, DestinationIndex, RowsDone, RowDone, OnlyRow, StageShape;
    ghost var re, im := sre[..], sim[..];
    ShapeFacts(st, length);
    RowsRoll(s, st, re, im, dre[..], dim[..], length, frames, 0, 0);
    for group := 0 to st.groups
      invariant RowsDone(s, st, re, im, dre[..], dim[..], length, frames, group, 0, 0)
    {
      for offset := 0 to st.stride
        invariant RowsDone(s, st, re, im, dre[..], dim[..], length, frames, group, offset, 0)
      {
        for output := 0 to st.radix
          invariant RowsDone(s, st, re, im, dre[..], dim[..], length, frames, group, offset, output)
        {
          ghost var was := (dre[..], dim[..]);
          RunOutput(s, st, sre, sim, dre, dim, length, frames, group, offset, output);
          RowsAdvance(s, st, re, im, was, dre[..], dim[..], length, frames, group, offset, output);
        }
        RowsRoll(s, st, re, im, dre[..], dim[..], length, frames, group, offset);
      }
      RowsRoll(s, st, re, im, dre[..], dim[..], length, frames, group, 0);
    }
    RowsRoll(s, st, re, im, dre[..], dim[..], length, frames, 0, 0);
    AllRowsDone(s, st, re, im, dre[..], dim[..], length, frames);
  }

  lemma AllRowsDone<T>(s: Scalars<T>, st: Stage<Complex<T>>, sre: seq<T>, sim: seq<T>, dre: seq<T>, dim: seq<T>,
                       length: nat, frames: nat)
    requires |sre| == |sim| == |dre| == |dim| == Area(length, frames) && StageShape(st, length)
    requires forall i: nat :: i < length ==> RowDone(s, st, sre, sim, dre, dim, length, frames, i)
    ensures forall f: nat :: f < frames ==>
              Frame(dre, dim, frames, f, length) == ApplyStage(ComplexOps(s), st, Frame(sre, sim, frames, f, length))
  {
    hide Area, StageShape, StageAt, FrameAt;
    forall f: nat | f < frames
      ensures Frame(dre, dim, frames, f, length) == ApplyStage(ComplexOps(s), st, Frame(sre, sim, frames, f, length))
    {
      forall i: nat | i < length
        ensures Frame(dre, dim, frames, f, length)[i]
          == ApplyStage(ComplexOps(s), st, Frame(sre, sim, frames, f, length))[i]
      {
        assert RowDone(s, st, sre, sim, dre, dim, length, frames, i);
      }
    }
  }

  /** What the swapping loop keeps: finishing the stages on the current planes gives the result. */
  ghost predicate Pending<T>(s: Scalars<T>, stages: seq<Stage<Complex<T>>>, k: nat, re: seq<T>, im: seq<T>,
                             was: (seq<T>, seq<T>), length: nat, frames: nat)
    requires |re| == |im| == |was.0| == |was.1| == Area(length, frames) && Shapes(stages, length) && k <= |stages|
  {
    forall f: nat :: f < frames ==>
      Transform(ComplexOps(s), stages[k..], Frame(re, im, frames, f, length))
      == Transform(ComplexOps(s), stages, Frame(was.0, was.1, frames, f, length))
  }

  /** Every column of the planes is transformed as the scalar kernel would. */
  ghost predicate Transformed<T>(s: Scalars<T>, stages: seq<Stage<Complex<T>>>, re: seq<T>, im: seq<T>,
                                 was: (seq<T>, seq<T>), length: nat, frames: nat)
    requires |re| == |im| == |was.0| == |was.1| == Area(length, frames) && Shapes(stages, length)
  {
    forall f: nat :: f < frames ==>
      Frame(re, im, frames, f, length) == Transform(ComplexOps(s), stages, Frame(was.0, was.1, frames, f, length))
  }

  method CopyPlane<T>(source: array<T>, destination: array<T>)
    requires source.Length == destination.Length && source != destination
    modifies destination
    ensures destination[..] == source[..]
  {
    for i := 0 to source.Length
      invariant destination[..i] == source[..i]
    {
      destination[i] := source[i];
    }
  }

  method ForwardBatched<T>(s: Scalars<T>, plan: Plan<Complex<T>>, re: array<T>, im: array<T>, scratchRe: array<T>,
                           scratchIm: array<T>,
                           frames: nat)
    returns (r: Result<(), FftError>)
    requires Shapes(plan.stages, plan.length) && re != im && scratchRe != scratchIm
      && {re, im} !! {scratchRe, scratchIm}
    modifies re, im, scratchRe, scratchIm
    ensures r.Ok? <==>
      && Area(plan.length, frames) <= USIZE_MAX
      && re.Length == im.Length == scratchRe.Length == scratchIm.Length == Area(plan.length, frames)
    ensures r.Ok? ==> Transformed(s, plan.stages, re[..], im[..], (old(re[..]), old(im[..])), plan.length, frames)
    ensures r.Err? ==> unchanged(re, im, scratchRe, scratchIm)
  {
    hide Area;
    var length := plan.length;
    var expected := CheckedProduct(length, frames);
    if expected.Err? {
      return Err(expected.error);
    }
    if re.Length != expected.value || im.Length != expected.value || scratchRe.Length != expected.value
      || scratchIm.Length != expected.value {
      return Err(BufferLength);
    }
    ghost var was := (re[..], im[..]);
    var sre, sim, dre, dim := re, im, scratchRe, scratchIm;
    for k := 0 to |plan.stages|
      invariant (sre, sim, dre, dim) == if k % 2 == 0 then (re, im, scratchRe, scratchIm)
        else (scratchRe, scratchIm, re, im)
      invariant Pending(s, plan.stages, k, sre[..], sim[..], was, length, frames)
    {
      RunBatchedStage(s, plan.stages[k], sre, sim, dre, dim, length, frames);
      assert plan.stages[k..][1..] == plan.stages[k + 1..];
      sre, sim, dre, dim := dre, dim, sre, sim;
    }
    if |plan.stages| % 2 != 0 {
      CopyPlane(sre, dre);
      CopyPlane(sim, dim);
    }
    r := Ok(());
  }

  /** Every column of the output plane holds the power spectrum of its frame. */
  ghost predicate PowersDone<T>(s: Scalars<T>, plan: RealPlan<T>, output: seq<T>, was: (seq<T>, seq<T>), frames: nat)
    requires RealShapes(plan) && |was.0| == |was.1| == Area(plan.half.length, frames)
    requires |output| == Area(plan.half.length + 1, frames)
  {
    forall k: nat :: k <= plan.half.length ==> PowerRow(s, plan, output, was, frames, k, frames)
  }

  ghost predicate PowerRow<T>(s: Scalars<T>, plan: RealPlan<T>, output: seq<T>, was: (seq<T>, seq<T>), frames: nat,
                              k: nat, count: nat)
    requires RealShapes(plan) && |was.0| == |was.1| == Area(plan.half.length, frames) && k <= plan.half.length
    requires |output| == Area(plan.half.length + 1, frames) && count <= frames
  {
    forall f: nat :: f < count ==>
      Cell(k, f, frames) < |output| &&
      output[Cell(k, f, frames)] == PowerAt(s, plan, Frame(was.0, was.1, frames, f, plan.half.length), k)
  }

  method RecombineFrame<T>(s: Scalars<T>, re: array<T>, im: array<T>, length: nat, frames: nat, f: nat, k: nat,
                           factor: Complex<T>)
    returns (power: T)
    requires Planes(re, im, length, frames) && f < frames && 0 < length && k <= length
    ensures power == Power(s, Recombined(s, Frame(re[..], im[..], frames, f, length), factor, k))
  {
    hide Cell, Area;
    CellsInjective(length, frames);
    var first, second := Cell(k % length, f, frames), Cell((length - k) % length, f, frames);
    var firstRe, firstIm, secondRe, secondIm := re[first], im[first], re[second], s.neg(im[second]);
    var evenRe, evenIm := s.mul(s.add(firstRe, secondRe), s.half), s.mul(s.add(firstIm, secondIm), s.half);
    var differenceRe, differenceIm := s.mul(s.sub(firstRe, secondRe), s.half), s.mul(s.sub(firstIm, secondIm), s.half);
    var oddRe, oddIm := differenceIm, s.neg(differenceRe);
    var valueRe := s.add(evenRe, s.sub(s.mul(factor.re, oddRe), s.mul(factor.im, oddIm)));
    var valueIm := s.add(evenIm, s.add(s.mul(factor.re, oddIm), s.mul(factor.im, oddRe)));
    power := s.add(s.mul(valueRe, valueRe), s.mul(valueIm, valueIm));
  }

  /** The batched power spectrum: no check of the samples is made here. */
  method ComputePowerSpectrumBatched<T>(s: Scalars<T>, plan: RealPlan<T>, re: array<T>, im: array<T>,
                                        scratchRe: array<T>, scratchIm: array<T>, output: array<T>, frames: nat)
    returns (r: Result<(), FftError>)
    requires RealShapes(plan) && re != im && scratchRe != scratchIm && {re, im} !! {scratchRe, scratchIm}
    requires output !in {re, im, scratchRe, scratchIm}
    modifies re, im, scratchRe, scratchIm, output
    ensures r.Ok? <==> && Area(plan.half.length, frames) <= USIZE_MAX && Area(plan.half.length + 1, frames) <= USIZE_MAX
                       && re.Length == im.Length == scratchRe.Length == scratchIm.Length
                            == Area(plan.half.length, frames)
                       && output.Length == Area(plan.half.length + 1, frames)
    ensures r.Ok? ==> PowersDone(s, plan, output[..], (old(re[..]), old(im[..])), frames)
  {
    hide Cell, Area, Recombined, Transform, PowerAt, PowerRow, Transformed;
    var length := plan.half.length;
    var halfValues, outputValues := CheckedProduct(length, frames), CheckedProduct(length + 1, frames);
    if halfValues.Err? || outputValues.Err? {
      return Err(Overflow);
    }
    if re.Length != halfValues.value || im.Length != halfValues.value || scratchRe.Length != halfValues.value
       || scratchIm.Length != halfValues.value || output.Length != outputValues.value {
      return Err(BufferLength);
    }
    ghost var was := (re[..], im[..]);
    var run := ForwardBatched(s, plan.half, re, im, scratchRe, scratchIm, frames);
    CellsInjective(length + 1, frames);
    for k := 0 to length + 1
      invariant forall j: nat :: j < k ==> PowerRow(s, plan, output[..], was, frames, j, frames)
      invariant Transformed(s, plan.half.stages, re[..], im[..], was, length, frames)
    {
      EmptyPowerRow(s, plan, output[..], was, frames, k);
      for f := 0 to frames
        invariant forall j: nat :: j < k ==> PowerRow(s, plan, output[..], was, frames, j, frames)
        invariant PowerRow(s, plan, output[..], was, frames, k, f)
        invariant Transformed(s, plan.half.stages, re[..], im[..], was, length, frames)
      {
        var power := RecombineFrame(s, re, im, length, frames, f, k, plan.recombination[k]);
        PowerOfFrame(s, plan, re[..], im[..], was, frames, f, k);
        ghost var values := output[..];
        output[Cell(k, f, frames)] := power;
        PowerRowsKept(s, plan, values, was, frames, k, f, power, output[..]);
      }
    }
    r := Ok(());
  }

  lemma EmptyPowerRow<T>(s: Scalars<T>, plan: RealPlan<T>, output: seq<T>, was: (seq<T>, seq<T>), frames: nat, k: nat)
    requires RealShapes(plan) && |was.0| == |was.1| == Area(plan.half.length, frames) && k <= plan.half.length
    requires |output| == Area(plan.half.length + 1, frames)
    ensures PowerRow(s, plan, output, was, frames, k, 0)
  {
  }

  lemma PowerRowsKept<T>(s: Scalars<T>, plan: RealPlan<T>, output: seq<T>, was: (seq<T>, seq<T>), frames: nat, k: nat,
                         f: nat,
                         power: T, next: seq<T>)
    requires RealShapes(plan) && |was.0| == |was.1| == Area(plan.half.length, frames) && k <= plan.half.length
      && f < frames
    requires |output| == Area(plan.half.length + 1, frames)
    requires forall j: nat :: j < k ==> PowerRow(s, plan, output, was, frames, j, frames)
    requires PowerRow(s, plan, output, was, frames, k, f)
    requires power == PowerAt(s, plan, Frame(was.0, was.1, frames, f, plan.half.length), k)
    requires Cell(k, f, frames) < |output| && next == output[Cell(k, f, frames) := power]
    ensures forall j: nat :: j < k ==> PowerRow(s, plan, next, was, frames, j, frames)
    ensures PowerRow(s, plan, next, was, frames, k, f + 1)
  {
    hide Cell, Area, PowerAt, Frame;
    CellsInjective(plan.half.length + 1, frames);
    forall j: nat | j < k ensures PowerRow(s, plan, next, was, frames, j, frames) {
      assert PowerRow(s, plan, output, was, frames, j, frames);
    }
  }

  lemma PowerOfFrame<T>(s: Scalars<T>, plan: RealPlan<T>, re: seq<T>, im: seq<T>, was: (seq<T>, seq<T>), frames: nat,
                        f: nat, k: nat)
    requires RealShapes(plan) && |re| == |im| == |was.0| == |was.1| == Area(plan.half.length, frames)
    requires f < frames && k <= plan.half.length
    requires Transformed(s, plan.half.stages, re, im, was, plan.half.length, frames)
    ensures Power(s, Recombined(s, Frame(re, im, frames, f, plan.half.length), plan.recombination[k], k))
         == PowerAt(s, plan, Frame(was.0, was.1, frames, f, plan.half.length), k)
  {
  }
}
