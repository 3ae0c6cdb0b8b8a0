/** The streaming resampler keeps only the history its filter still needs. */
module StreamResampling {
  import opened Grids
  import opened Resampling
  import opened Results
  import opened Sequences

  class StreamResampler<S, A> {
    const fir: Fir<S, A>
    const resampler: Resampler<A>
    var buffer: seq<S>
    var inputStart: nat
    var outputsEmitted: nat
    /** Everything pushed so far. */
    ghost var consumed: seq<S>

    ghost predicate Valid()
      reads this
    {
      && resampler.Valid()
      && AllFinite(fir, consumed)
      && (!resampler.pair.IsIdentity() ==>
            && inputStart + |buffer| == |consumed| && buffer == consumed[inputStart..]
            && Settled(resampler, outputsEmitted, |consumed|)
            && Retained(resampler, outputsEmitted, inputStart))
    }

    constructor (fir: Fir<S, A>, resampler: Resampler<A>)
      requires resampler.Valid()
      ensures Valid() && this.fir == fir && this.resampler == resampler
      ensures consumed == [] && outputsEmitted == 0
    {
      this.fir, this.resampler := fir, resampler;
      buffer, inputStart, outputsEmitted := [], 0, 0;
      consumed := [];
    }

    method OutputAtPosition(n: nat) returns (y: Result<S, ResampleError>)
      requires resampler.Valid() && inputStart + |buffer| == |consumed| && buffer == consumed[inputStart..]
      requires Retained(resampler, n, inputStart)
      ensures y == if fir.finite(OutputAt(fir, resampler, consumed, n)) then Ok(OutputAt(fir, resampler, consumed, n))
        else Err(NonFiniteOutput)
    {
      hide Cell;
      var r := resampler;
      var position := Cell(n, r.center, r.pair.denominator);
      var base := position / r.pair.numerator;
      var branch := r.phases[position % r.pair.numerator];
      var accumulator := fir.zero;
      var inputEnd := inputStart + |buffer|;
      var tap := 0;
      while tap < |branch| && tap <= base
        invariant tap <= |branch|
        invariant accumulator == Accumulate(fir, branch, consumed, base, tap)
      {
        var absolute := base - tap;
        if inputStart <= absolute < inputEnd {
          accumulator := fir.step(accumulator, branch[tap], buffer[absolute - inputStart]);
        }
        tap := tap + 1;
      }
      TapsBeyondBase(fir, branch, consumed, base, tap, |branch|);
      var output := fir.output(accumulator);
      y := if fir.finite(output) then Ok(output) else Err(NonFiniteOutput);
    }

    /** Accepts `input` and returns the outputs whose newest sample has now arrived, exactly as
        the offline form computes them from everything pushed so far. */
    method Push(input: seq<S>) returns (y: Result<seq<S>, ResampleError>)
      requires Valid()
      modifies this
      ensures y.Ok? ==> Valid() && consumed == old(consumed) + input && outputsEmitted >= old(outputsEmitted)
      ensures y == Err(NonFiniteInput) <==> !AllFinite(fir, input)
      ensures y.Ok? && resampler.pair.IsIdentity() ==> y.value == input
      ensures y.Ok? && !resampler.pair.IsIdentity() ==>
                AllFinite(fir, y.value)
                  && y.value == Outputs(fir, resampler, consumed, old(outputsEmitted), outputsEmitted)
      ensures y == Err(NonFiniteOutput) ==>
                !resampler.pair.IsIdentity() && SettledNonFinite(fir, resampler, old(consumed) + input)
    {
      hide OutputAt, Cell;
      for i := 0 to |input|
        invariant forall k :: 0 <= k < i ==> fir.finite(input[k])
      {
        if !fir.finite(input[i]) {
          return Err(NonFiniteInput);
        }
      }
      consumed := consumed + input;
      if resampler.pair.IsIdentity() {
        return Ok(input);
      }
      buffer := buffer + input;
      var totalInput := inputStart + |buffer|;
      var output: seq<S> := [];
      ghost var first := outputsEmitted;
      if totalInput != 0 {
        while resampler.Base(outputsEmitted) < totalInput
          invariant first <= outputsEmitted
          invariant consumed == old(consumed) + input && inputStart == old(inputStart)
            && buffer == consumed[inputStart..]
          invariant outputsEmitted > 0 ==> resampler.Base(outputsEmitted - 1) < totalInput
          invariant Retained(resampler, outputsEmitted, inputStart)
          invariant AllFinite(fir, output) && output == Outputs(fir, resampler, consumed, first, outputsEmitted)
          decreases Area(totalInput, resampler.pair.numerator) - resampler.Position(outputsEmitted)
        {
          var value := OutputAtPosition(outputsEmitted);
          if value.Err? {
            return Err(value.error);
          }
          output := output + [value.value];
          BaseBelow(resampler, outputsEmitted, totalInput);
          PositionMonotone(resampler, outputsEmitted, outputsEmitted + 1);
          BaseMonotone(resampler, outputsEmitted, outputsEmitted + 1);
          outputsEmitted := outputsEmitted + 1;
        }
      }
      Drain();
      y := Ok(output);
    }

    /** Drops the samples no later output reaches. */
    method Drain()
      requires resampler.Valid() && inputStart + |buffer| == |consumed| && buffer == consumed[inputStart..]
      requires Retained(resampler, outputsEmitted, inputStart)
      modifies this`buffer, this`inputStart
      ensures inputStart + |buffer| == |consumed| && buffer == consumed[inputStart..]
      ensures Retained(resampler, outputsEmitted, inputStart)
      ensures inputStart == |consumed| || inputStart + resampler.PerPhase() - 1 >= resampler.Base(outputsEmitted)
    {
      var nextBase := resampler.Base(outputsEmitted);
      var history := resampler.PerPhase() - 1;
      var keepFrom := if nextBase >= history then nextBase - history else 0;
      if keepFrom > inputStart {
        var dropCount := if keepFrom - inputStart <= |buffer| then keepFrom - inputStart else |buffer|;
        buffer := buffer[dropCount..];
        inputStart := inputStart + dropCount;
      }
    }

    /** Emits the tail of the stream. */
    method Finish() returns (y: Result<seq<S>, ResampleError>)
      requires Valid()
      modifies this
      ensures resampler.pair.IsIdentity() ==> y == Ok([])
      ensures !resampler.pair.IsIdentity() ==>
                old(outputsEmitted) <= OutputCount(resampler, |old(consumed)|)
      ensures !resampler.pair.IsIdentity() ==>
                var tail := Outputs(fir, resampler, old(consumed), old(outputsEmitted),
                                    OutputCount(resampler, |old(consumed)|));
                y == if AllFinite(fir, tail) then Ok(tail) else Err(NonFiniteOutput)
    {
      hide OutputAt, Cell, Area;
      if resampler.pair.IsIdentity() {
        return Ok([]);
      }
      var totalInput := inputStart + |buffer|;
      var totalOutput := OutputCount(resampler, totalInput);
      if outputsEmitted > 0 {
        EmittedWithinCount(resampler, outputsEmitted - 1, totalInput);
      }
      ghost var first := outputsEmitted;
      ghost var tail := Outputs(fir, resampler, consumed, first, totalOutput);
      var output: seq<S> := [];
      while outputsEmitted < totalOutput
        invariant first <= outputsEmitted <= totalOutput
        invariant consumed == old(consumed) && inputStart == old(inputStart) && buffer == old(buffer)
        invariant Retained(resampler, outputsEmitted, inputStart)
        invariant AllFinite(fir, output) && output == tail[..outputsEmitted - first]
      {
        var value := OutputAtPosition(outputsEmitted);
        assert tail[outputsEmitted - first] == OutputAt(fir, resampler, consumed, outputsEmitted);
        if value.Err? {
          assert !fir.finite(tail[outputsEmitted - first]);
          return Err(value.error);
        }
        output := output + [value.value];
        BaseMonotone(resampler, outputsEmitted, outputsEmitted + 1);
        outputsEmitted := outputsEmitted + 1;
      }
      assert tail[..totalOutput - first] == tail;
      y := Ok(output);
    }
  }

  /** The outputs emitted so far are exactly those whose newest sample has arrived. */
  ghost predicate Settled<A>(r: Resampler<A>, emitted: nat, total: nat)
    requires r.Valid()
  {
    (emitted > 0 ==> r.Base(emitted - 1) < total) && r.Base(emitted) >= total
  }

  /** No sample that output `n` or a later one reaches has been dropped. */
  ghost predicate Retained<A>(r: Resampler<A>, n: nat, inputStart: nat)
    requires r.Valid()
  {
    inputStart == 0 || inputStart + (r.PerPhase() - 1) <= r.Base(n)
  }

  /** Some output that later input cannot change is not finite. */
  ghost predicate SettledNonFinite<S, A>(fir: Fir<S, A>, r: Resampler<A>, input: seq<S>)
    requires r.Valid()
  {
    exists n: nat :: r.Base(n) < |input| && !fir.finite(OutputAt(fir, r, input, n))
  }

  /** Pushing any partition of an input and finishing gives what the offline form gives: it
      succeeds on the same inputs, with the same samples. */
  method ResampleChunks<S, A>(fir: Fir<S, A>, r: Resampler<A>, chunks: seq<seq<S>>)
    returns (y: Result<seq<S>, ResampleError>)
    requires r.Valid()
    ensures y.Ok? <==> Processed(fir, r, Flatten(chunks)).Ok?
    ensures y.Ok? ==> y == Processed(fir, r, Flatten(chunks))
    ensures y.Ok? && !r.pair.IsIdentity() ==> EveryInstant(r.pair, |Flatten(chunks)|, |y.value|)
  {
    hide OutputAt, Area, Cell, Processed, Retained, SettledNonFinite, EveryInstant;
    var stream := new StreamResampler(fir, r);
    var output: seq<S> := [];
    for i := 0 to |chunks|
      invariant stream.Valid() && stream.fir == fir && stream.resampler == r
      invariant stream.consumed == Flatten(chunks[..i])
      invariant output == if r.pair.IsIdentity() then stream.consumed
        else Outputs(fir, r, stream.consumed, 0, stream.outputsEmitted)
      invariant AllFinite(fir, output)
    {
      ghost var before, emitted := stream.consumed, stream.outputsEmitted;
      FlattenStep(chunks, i);
      var part := stream.Push(chunks[i]);
      if part.Err? {
        ChunkRefused(fir, r, before, chunks[i], Flatten(chunks), part.error);
        return part;
      }
      if !r.pair.IsIdentity() {
        OutputsExtend(fir, r, before, stream.consumed, emitted, stream.outputsEmitted);
      }
      output := output + part.value;
    }
    assert chunks[..|chunks|] == chunks;
    ghost var emitted := stream.outputsEmitted;
    var tail := stream.Finish();
    PartsJoin(fir, r, Flatten(chunks), emitted, output, tail);
    if tail.Err? {
      return tail;
    }
    y := Ok(output + tail.value);
    ProcessedCount(fir, r, Flatten(chunks));
  }

  lemma OutputsExtend<S, A>(fir: Fir<S, A>, r: Resampler<A>, x: seq<S>, y: seq<S>, mid: nat, to: nat)
    requires r.Valid() && x <= y && mid <= to && (mid > 0 ==> r.Base(mid - 1) < |x|)
    ensures Outputs(fir, r, x, 0, mid) + Outputs(fir, r, y, mid, to) == Outputs(fir, r, y, 0, to)
  {
    OutputsPrefix(fir, r, x, y, 0, mid);
    OutputsJoin(fir, r, y, 0, mid, to);
  }

  lemma ChunkRefused<S, A>(fir: Fir<S, A>, r: Resampler<A>, before: seq<S>, chunk: seq<S>, input: seq<S>,
                           error: ResampleError)
    requires r.Valid() && before + chunk <= input
    requires error == NonFiniteInput ==> !AllFinite(fir, chunk)
    requires error == NonFiniteOutput ==> !r.pair.IsIdentity() && SettledNonFinite(fir, r, before + chunk)
    ensures Processed(fir, r, input).Err?
  {
    hide SettledNonFinite, Processed;
    FiniteJoin(fir, before, chunk);
    PrefixRefused(fir, r, before + chunk, input);
  }

  lemma FlattenStep<S>(chunks: seq<seq<S>>, i: nat)
    requires i < |chunks|
    ensures Flatten(chunks[..i + 1]) == Flatten(chunks[..i]) + chunks[i] <= Flatten(chunks)
  {
    assert chunks[..i + 1][..i] == chunks[..i];
    FlattenSplit(chunks, i + 1);
  }

  lemma PrefixRefused<S, A>(fir: Fir<S, A>, r: Resampler<A>, prefix: seq<S>, input: seq<S>)
    requires r.Valid() && prefix <= input
    requires !AllFinite(fir, prefix) || (!r.pair.IsIdentity() && SettledNonFinite(fir, r, prefix))
    ensures Processed(fir, r, input).Err?
  {
    hide OutputAt, Area, Cell;
    if !AllFinite(fir, prefix) {
      var i :| 0 <= i < |prefix| && !fir.finite(prefix[i]);
      assert !fir.finite(input[i]);
    } else {
      var n: nat :| r.Base(n) < |prefix| && !fir.finite(OutputAt(fir, r, prefix, n));
      SettledOutput(fir, r, prefix, input, n);
      var count := OutputCount(r, |input|);
      assert Outputs(fir, r, input, 0, count)[n] == OutputAt(fir, r, input, n);
    }
  }

  lemma SettledOutput<S, A>(fir: Fir<S, A>, r: Resampler<A>, prefix: seq<S>, input: seq<S>, n: nat)
    requires r.Valid() && prefix <= input && r.Base(n) < |prefix|
    ensures n < OutputCount(r, |input|) && OutputAt(fir, r, input, n) == OutputAt(fir, r, prefix, n)
  {
    EmittedWithinCount(r, n, |input|);
    AccumulatePrefix(fir, r.phases[r.Phase(n)], prefix, input, r.Base(n), r.PerPhase());
  }

  /** The emitted outputs and the tail make up the offline result. */
  lemma PartsJoin<S, A>(fir: Fir<S, A>, r: Resampler<A>, input: seq<S>, emitted: nat, output: seq<S>,
                        tail: Result<seq<S>, ResampleError>)
    requires r.Valid() && AllFinite(fir, input) && AllFinite(fir, output)
    requires r.pair.IsIdentity() ==> output == input && tail == Ok([])
    requires !r.pair.IsIdentity() ==>
               && emitted <= OutputCount(r, |input|) && output == Outputs(fir, r, input, 0, emitted)
               && var rest := Outputs(fir, r, input, emitted, OutputCount(r, |input|));
                  tail == if AllFinite(fir, rest) then Ok(rest) else Err(NonFiniteOutput)
    ensures tail.Ok? <==> Processed(fir, r, input).Ok?
    ensures tail.Ok? ==> Processed(fir, r, input) == Ok(output + tail.value)
  {
    hide OutputAt, Area, Cell;
    if r.pair.IsIdentity() {
      assert output + [] == output;
    } else {
      var count := OutputCount(r, |input|);
      var rest := Outputs(fir, r, input, emitted, count);
      OutputsJoin(fir, r, input, 0, emitted, count);
      assert output + rest == Outputs(fir, r, input, 0, count);
      FiniteJoin(fir, output, rest);
    }
  }

  lemma FiniteJoin<S, A>(fir: Fir<S, A>, x: seq<S>, y: seq<S>)
    ensures AllFinite(fir, x + y) <==> AllFinite(fir, x) && AllFinite(fir, y)
  {
    assert forall i :: 0 <= i < |y| ==> (x + y)[|x| + i] == y[i];
    assert forall i :: 0 <= i < |x| ==> (x + y)[i] == x[i];
  }
}
