/** The in-place kernel, proved to compute one function of its input buffer. */
module FftKernel {
  import opened Fft
  import opened Grids
  import opened Results
  import opened Rings

  // ---- One transform as a function --------------------------------------------------

  function SourceIndex<C>(st: Stage<C>, group: nat, offset: nat, t: nat): nat {
    Cell(Cell(t, group, st.groups), offset, st.stride)
  }

  function DestinationIndex<C>(st: Stage<C>, group: nat, offset: nat, output: nat): nat {
    Cell(Cell(group, output, st.radix), offset, st.stride)
  }

  predicate InStage<C>(st: Stage<C>, length: nat, group: nat, offset: nat, lane: nat) {
    StageShape(st, length) && group < st.groups && offset < st.stride && lane < st.radix
  }

  lemma SourceInRange<C>(st: Stage<C>, length: nat, group: nat, offset: nat, t: nat)
    requires InStage(st, length, group, offset, t)
    ensures SourceIndex(st, group, offset, t) < length
  {
    hide Area, Cell;
    CellInRange(t, group, st.radix, st.groups);
    CellInRange(Cell(t, group, st.groups), offset, Area(st.radix, st.groups), st.stride);
  }

  lemma TablesInRange<C>(st: Stage<C>, length: nat, group: nat, offset: nat, lane: nat, output: nat)
    requires InStage(st, length, group, offset, lane) && output < st.radix
    ensures Cell(lane, output, st.radix) < |st.roots| && Cell(group, output, st.radix) < |st.twiddles|
  {
    hide Area, Cell;
    CellInRange(lane, output, st.radix, st.radix);
    CellInRange(group, output, st.groups, st.radix);
  }

  lemma DestinationDecodes<C>(st: Stage<C>, length: nat, group: nat, offset: nat, output: nat)
    requires InStage(st, length, group, offset, output)
    ensures DestinationIndex(st, group, offset, output) < length
    ensures GroupOf(st, DestinationIndex(st, group, offset, output)) == group
    ensures OffsetOf(st, DestinationIndex(st, group, offset, output)) == offset
    ensures OutputOf(st, DestinationIndex(st, group, offset, output)) == output
  {
    hide Area, Cell;
    AreaCommutes(st.groups, st.radix);
    CellInRange(group, output, st.groups, st.radix);
    CellInRange(Cell(group, output, st.radix), offset, Area(st.radix, st.groups), st.stride);
    CellDecodes(group, output, st.radix);
    CellDecodes(Cell(group, output, st.radix), offset, st.stride);
  }

  // The lane coordinates of a destination position.
  function GroupOf<C>(st: Stage<C>, i: nat): nat
    requires st.radix > 0 && st.stride > 0
  {
    (i / st.stride) / st.radix
  }

  function OffsetOf<C>(st: Stage<C>, i: nat): nat
    requires st.stride > 0
  {
    i % st.stride
  }

  function OutputOf<C>(st: Stage<C>, i: nat): nat
    requires st.radix > 0 && st.stride > 0
  {
    (i / st.stride) % st.radix
  }

  lemma DestinationEncodes<C>(st: Stage<C>, length: nat, i: nat)
    requires StageShape(st, length) && i < length
    ensures InStage(st, length, GroupOf(st, i), OffsetOf(st, i), OutputOf(st, i))
    ensures DestinationIndex(st, GroupOf(st, i), OffsetOf(st, i), OutputOf(st, i)) == i
  {
    hide Area, Cell;
    CellEncodes(i, Area(st.radix, st.groups), st.stride);
    AreaCommutes(st.groups, st.radix);
    CellEncodes(i / st.stride, st.groups, st.radix);
  }

  function Lane<C>(st: Stage<C>, x: seq<C>, group: nat, offset: nat, t: nat): C
    requires InStage(st, |x|, group, offset, t)
  {
    SourceInRange(st, |x|, group, offset, t);
    x[SourceIndex(st, group, offset, t)]
  }

  /** The sum over the first `count` lanes, in the order the kernel adds them. */
  function Butterfly<C>(o: Ops<C>, st: Stage<C>, x: seq<C>, group: nat, offset: nat, output: nat, count: nat): C
    requires InStage(st, |x|, group, offset, output)
    requires 1 <= count <= st.radix
  {
    TablesInRange(st, |x|, group, offset, count - 1, output);
    var value := Lane(st, x, group, offset, count - 1);
    if count == 1 then value
    else o.add(Butterfly(o, st, x, group, offset, output, count - 1),
               o.mul(value, st.roots[Cell(count - 1, output, st.radix)]))
  }

  function StageValue<C>(o: Ops<C>, st: Stage<C>, x: seq<C>, group: nat, offset: nat, output: nat): C
    requires InStage(st, |x|, group, offset, output)
  {
    TablesInRange(st, |x|, group, offset, output, output);
    o.mul(Butterfly(o, st, x, group, offset, output, st.radix), st.twiddles[Cell(group, output, st.radix)])
  }

  function StageAt<C>(o: Ops<C>, st: Stage<C>, x: seq<C>, i: nat): C
    requires StageShape(st, |x|) && i < |x|
  {
    hide Area, Cell;
    DestinationEncodes(st, |x|, i);
    StageValue(o, st, x, GroupOf(st, i), OffsetOf(st, i), OutputOf(st, i))
  }

  function ApplyStage<C>(o: Ops<C>, st: Stage<C>, x: seq<C>): (y: seq<C>)
    requires StageShape(st, |x|)
    ensures |y| == |x|
  {
    seq(|x|, i requires 0 <= i < |x| => StageAt(o, st, x, i))
  }

  predicate Shapes<C>(stages: seq<Stage<C>>, length: nat) {
    forall k :: 0 <= k < |stages| ==> StageShape(stages[k], length)
  }

  /** The whole transform: the stages applied in order, with the kernel's own operations. */
  function Transform<C>(o: Ops<C>, stages: seq<Stage<C>>, x: seq<C>): (y: seq<C>)
    requires Shapes(stages, |x|)
    ensures |y| == |x|
  {
    if stages == [] then x else Transform(o, stages[1..], ApplyStage(o, stages[0], x))
  }

  // ---- The kernel -------------------------------------------------------------------

  /** The lanes of one group and offset, copied into the work buffer. */
  ghost predicate Loaded<C>(values: seq<C>, st: Stage<C>, x: seq<C>, group: nat, offset: nat)
    requires StageShape(st, |x|) && group < st.groups && offset < st.stride
  {
    && |values| == KERNEL_WIDTH
    && forall t: nat :: t < st.radix ==> values[t] == Lane(st, x, group, offset, t)
  }

  method Accumulate<C>(o: Ops<C>, st: Stage<C>, values: array<C>, group: nat, offset: nat, output: nat, ghost x: seq<C>)
    returns (value: C)
    requires InStage(st, |x|, group, offset, output) && Loaded(values[..], st, x, group, offset)
    ensures value == Butterfly(o, st, x, group, offset, output, st.radix)
  {
    hide Area, Cell, Lane;
    value := values[0];
    assert value == Lane(st, x, group, offset, 0);
    for t := 1 to st.radix
      invariant value == Butterfly(o, st, x, group, offset, output, t)
    {
      TablesInRange(st, |x|, group, offset, t, output);
      assert values[..][t] == Lane(st, x, group, offset, t);
      value := o.add(value, o.mul(values[t], st.roots[Cell(t, output, st.radix)]));
    }
  }

  /** All outputs of one group and offset. */
  method RunButterfly<C>(o: Ops<C>, st: Stage<C>, source: array<C>, destination: array<C>, values: array<C>,
                         group: nat, offset: nat)
    requires StageShape(st, source.Length) && group < st.groups && offset < st.stride
    requires destination.Length == source.Length && values.Length == KERNEL_WIDTH
    requires source != destination && source != values && destination != values
    modifies destination, values
    ensures forall i: nat :: i < destination.Length && At(st, i, group, offset) ==>
              destination[i] == StageAt(o, st, source[..], i)
    ensures forall i: nat :: i < destination.Length && !At(st, i, group, offset) ==>
              destination[i] == old(destination[i])
  {
    hide Area, Cell, SourceIndex, DestinationIndex, At, OutputOf, Lane, Butterfly, StageAt, StageShape;
    ghost var x := source[..];
    ShapeFacts(st, |x|);
    for t := 0 to st.radix
      invariant forall k: nat :: k < t ==> values[k] == Lane(st, x, group, offset, k)
      invariant unchanged(destination)
    {
      SourceInRange(st, |x|, group, offset, t);
      LaneIs(st, x, group, offset, t);
      values[t] := source[SourceIndex(st, group, offset, t)];
    }
    for output := 0 to st.radix
      invariant Loaded(values[..], st, x, group, offset)
      invariant forall i: nat :: i < destination.Length && At(st, i, group, offset) && OutputOf(st, i) < output ==>
                  destination[i] == StageAt(o, st, x, i)
      invariant forall i: nat :: i < destination.Length && !At(st, i, group, offset) ==>
                  destination[i] == old(destination[i])
    {
      var value := Accumulate(o, st, values, group, offset, output, x);
      TablesInRange(st, |x|, group, offset, output, output);
      SamePosition(o, st, x, group, offset, output);
      destination[DestinationIndex(st, group, offset, output)] :=
        o.mul(value, st.twiddles[Cell(group, output, st.radix)]);
    }
    OutputsBounded(st, |x|);
  }

  ghost predicate At<C>(st: Stage<C>, i: nat, group: nat, offset: nat)
    requires st.radix > 0 && st.stride > 0
  {
    GroupOf(st, i) == group && OffsetOf(st, i) == offset
  }

  lemma ShapeFacts<C>(st: Stage<C>, length: nat)
    requires StageShape(st, length)
    ensures 0 < st.radix <= KERNEL_WIDTH && 0 < st.groups && 0 < st.stride
  {
  }

  lemma LaneIs<C>(st: Stage<C>, x: seq<C>, group: nat, offset: nat, t: nat)
    requires InStage(st, |x|, group, offset, t) && SourceIndex(st, group, offset, t) < |x|
    ensures Lane(st, x, group, offset, t) == x[SourceIndex(st, group, offset, t)]
  {
  }

  lemma OutputsBounded<C>(st: Stage<C>, length: nat)
    requires StageShape(st, length)
    ensures forall i: nat :: i < length ==> OutputOf(st, i) < st.radix
  {
  }

  lemma SamePosition<C>(o: Ops<C>, st: Stage<C>, x: seq<C>, group: nat, offset: nat, output: nat)
    requires InStage(st, |x|, group, offset, output)
    ensures var position := DestinationIndex(st, group, offset, output);
            && position < |x| && At(st, position, group, offset) && OutputOf(st, position) == output
            && StageAt(o, st, x, position) == StageValue(o, st, x, group, offset, output)
            && forall i: nat :: i < |x| && At(st, i, group, offset) && OutputOf(st, i) == output ==> i == position
  {
    hide Area, Cell, GroupOf, OffsetOf, OutputOf, DestinationIndex, Butterfly, StageValue;
    DestinationDecodes(st, |x|, group, offset, output);
    forall i: nat | i < |x| && At(st, i, group, offset) && OutputOf(st, i) == output
      ensures i == DestinationIndex(st, group, offset, output)
    {
      DestinationEncodes(st, |x|, i);
    }
  }

  /** One pass over the buffer: every destination position receives its stage value. */
  method RunStage<C>(o: Ops<C>, st: Stage<C>, source: array<C>, destination: array<C>, values: array<C>)
    requires StageShape(st, source.Length)
    requires destination.Length == source.Length && values.Length == KERNEL_WIDTH
    requires source != destination && source != values && destination != values
    modifies destination, values
    ensures destination[..] == ApplyStage(o, st, source[..])
  {
    hide Area, Cell, StageAt, StageShape, GroupOf, OffsetOf;
    ghost var x := source[..];
    ShapeFacts(st, |x|);
    for group := 0 to st.groups
      invariant forall i: nat :: i < |x| && GroupOf(st, i) < group ==> destination[i] == StageAt(o, st, x, i)
    {
      for offset := 0 to st.stride
        invariant forall i: nat :: i < |x| && GroupOf(st, i) < group ==> destination[i] == StageAt(o, st, x, i)
        invariant forall i: nat :: i < |x| && GroupOf(st, i) == group && OffsetOf(st, i) < offset ==>
                    destination[i] == StageAt(o, st, x, i)
      {
        RunButterfly(o, st, source, destination, values, group, offset);
      }
      CoordinatesBounded(st, |x|);
    }
    CoordinatesBounded(st, |x|);
  }

  lemma CoordinatesBounded<C>(st: Stage<C>, length: nat)
    requires StageShape(st, length)
    ensures forall i: nat :: i < length ==> GroupOf(st, i) < st.groups && OffsetOf(st, i) < st.stride
  {
    forall i: nat | i < length ensures GroupOf(st, i) < st.groups && OffsetOf(st, i) < st.stride {
      DestinationEncodes(st, length, i);
    }
  }

  /** Runs every stage between the two swapped buffers and leaves the transform in `input`,
      whatever the parity of the stage count; refuses only mismatched buffers. */
  method ForwardInPlace<C>(o: Ops<C>, plan: Plan<C>, input: array<C>, scratch: array<C>)
    returns (r: Result<(), FftError>)
    requires Shapes(plan.stages, plan.length) && input != scratch
    modifies input, scratch
    ensures r.Ok? <==> input.Length == plan.length && scratch.Length == plan.length
    ensures r.Ok? ==> input[..] == Transform(o, plan.stages, old(input[..]))
    ensures r.Err? ==> unchanged(input) && unchanged(scratch)
  {
    hide StageShape, StageAt;
    if input.Length != plan.length || scratch.Length != plan.length {
      return Err(BufferLength);
    }
    var source, destination := input, scratch;
    var values := new C[KERNEL_WIDTH](_ => o.zero);
    ghost var x := input[..];
    for k := 0 to |plan.stages|
      invariant {source, destination} == {input, scratch} && source != destination
      invariant source == if k % 2 == 0 then input else scratch
      invariant Transform(o, plan.stages[k..], source[..]) == Transform(o, plan.stages, x)
    {
      assert plan.stages[k..][1..] == plan.stages[k + 1..];
      RunStage(o, plan.stages[k], source, destination, values);
      source, destination := destination, source;
    }
    if |plan.stages| % 2 != 0 {
      ghost var result := source[..];
      for i := 0 to source.Length
        invariant source[..] == result && destination[..i] == result[..i]
      {
        destination[i] := source[i];
      }
    }
    r := Ok(());
  }
}
