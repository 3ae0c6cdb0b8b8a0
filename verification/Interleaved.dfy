/** Interleaved sample frames, decoded whole or across any partition of their bytes. */
module Interleaved {
  import Division
  import opened Bytes
  import opened Grids
  import opened Results
  import opened Sequences

  /** A sample format: its width and its per-sample decoder, which may refuse a sample. */
  datatype Format<S> = Format(width: nat, decode: Bytes -> Option<S>)

  // ---- Cutting a byte string into frames ---------------------------------------------

  function Frames(bytes: Bytes, size: nat): (r: seq<Bytes>)
    requires size > 0
    ensures forall f :: 0 <= f < |r| ==> |r[f]| == size
    decreases |bytes|
  {
    if |bytes| < size then [] else [bytes[..size]] + Frames(bytes[size..], size)
  }

  function Rest(bytes: Bytes, size: nat): (r: Bytes)
    requires size > 0
    ensures |r| < size
    decreases |bytes|
  {
    if |bytes| < size then bytes else Rest(bytes[size..], size)
  }

  /** What is left of the first part waits for the second. */
  lemma {:induction false} FramesJoin(a: Bytes, b: Bytes, size: nat)
    requires size > 0
    ensures Frames(a + b, size) == Frames(a, size) + Frames(Rest(a, size) + b, size)
    ensures Rest(a + b, size) == Rest(Rest(a, size) + b, size)
    decreases |a|
  {
    if |a| >= size {
      FramesJoin(a[size..], b, size);
      assert (a + b)[..size] == a[..size] && (a + b)[size..] == a[size..] + b;
    }
  }

  lemma DivideStep(n: nat, d: nat)
    requires d > 0
    ensures n < d ==> n / d == 0
    ensures n >= d ==> n / d == (n - d) / d + 1
  {
    if n < d {
      Division.QuotientRemainder(d, 0, n);
    } else {
      var q, r := (n - d) / d, (n - d) % d;
      assert n == d * (q + 1) + r;
      Division.QuotientRemainder(d, q + 1, r);
    }
  }

  lemma AreaStep(f: nat, size: nat)
    ensures Area(f + 1, size) == Area(f, size) + size && Area(0, size) == 0
  {
  }

  /** The same cut by division and multiplication. */
  lemma {:induction false} FramesByDivision(bytes: Bytes, size: nat)
    requires size > 0
    ensures |Frames(bytes, size)| == |bytes| / size
    ensures Area(|bytes| / size, size) <= |bytes| && Rest(bytes, size) == bytes[Area(|bytes| / size, size)..]
    decreases |bytes|
  {
    hide Area;
    DivideStep(|bytes|, size);
    AreaStep(0, size);
    if |bytes| >= size {
      FramesByDivision(bytes[size..], size);
      AreaStep((|bytes| - size) / size, size);
    }
  }

  lemma {:induction false} FrameAt(bytes: Bytes, size: nat, f: nat)
    requires size > 0 && f < |Frames(bytes, size)|
    ensures Area(f, size) + size <= |bytes| && Frames(bytes, size)[f] == bytes[Area(f, size)..Area(f, size) + size]
    decreases f
  {
    hide Area;
    AreaStep(0, size);
    if f > 0 {
      FrameAt(bytes[size..], size, f - 1);
      AreaStep(f - 1, size);
    }
  }

  // ---- Channels ---------------------------------------------------------------------

  predicate FrameOk(frame: Bytes, width: nat, channels: nat) { |frame| == Area(channels, width) }

  function SampleOf(frame: Bytes, width: nat, channels: nat, c: nat): Bytes
    requires FrameOk(frame, width, channels) && c < channels
  {
    AreaMonotone(c, width, channels, width);
    AreaMonotone(c + 1, width, channels, width);
    AreaStep(c, width);
    frame[Area(c, width)..Area(c, width) + width]
  }

  predicate FramesOk(frames: seq<Bytes>, width: nat, channels: nat) {
    forall f :: 0 <= f < |frames| ==> FrameOk(frames[f], width, channels)
  }

  predicate Decodable<S>(frame: Bytes, format: Format<S>, channels: nat)
    requires FrameOk(frame, format.width, channels)
  {
    forall c :: 0 <= c < channels ==> format.decode(SampleOf(frame, format.width, channels, c)).Some?
  }

  predicate AllDecodable<S>(frames: seq<Bytes>, format: Format<S>, channels: nat)
    requires FramesOk(frames, format.width, channels)
  {
    forall f :: 0 <= f < |frames| ==> Decodable(frames[f], format, channels)
  }

  function SampleValue<S>(frame: Bytes, format: Format<S>, channels: nat, c: nat): S
    requires FrameOk(frame, format.width, channels) && Decodable(frame, format, channels) && c < channels
  {
    format.decode(SampleOf(frame, format.width, channels, c)).value
  }

  function Channel<S>(frames: seq<Bytes>, format: Format<S>, channels: nat, c: nat): (r: seq<S>)
    requires FramesOk(frames, format.width, channels) && AllDecodable(frames, format, channels) && c < channels
    ensures |r| == |frames| && forall f :: 0 <= f < |frames| ==> r[f] == SampleValue(frames[f], format, channels, c)
  {
    seq(|frames|, f requires 0 <= f < |frames| => SampleValue(frames[f], format, channels, c))
  }

  function Channels<S>(frames: seq<Bytes>, format: Format<S>, channels: nat): (r: seq<seq<S>>)
    requires FramesOk(frames, format.width, channels) && AllDecodable(frames, format, channels)
    ensures |r| == channels && forall c :: 0 <= c < channels ==> r[c] == Channel(frames, format, channels, c)
  {
    seq(channels, c requires 0 <= c < channels => Channel(frames, format, channels, c))
  }

  // ---- The nested loops -------------------------------------------------------------

  lemma SliceOfSlice(bytes: Bytes, start: nat, length: nat, offset: nat, width: nat)
    requires start + length <= |bytes| && offset + width <= length
    ensures bytes[start..start + length][offset..offset + width] == bytes[start + offset..start + offset + width]
  {
    var part, whole :=
      bytes[start..start + length][offset..offset + width], bytes[start + offset..start + offset + width];
    assert |part| == |whole|;
    assert forall k :: 0 <= k < width ==> part[k] == bytes[start + offset + k] == whole[k];
  }

  /** One frame: each channel takes its sample. */
  method DecodeFrame<S>(bytes: Bytes, start: nat, format: Format<S>, channels: nat, before: seq<seq<S>>)
    returns (r: Option<seq<seq<S>>>)
    requires |before| == channels && start + Area(channels, format.width) <= |bytes|
    ensures var frame := bytes[start..start + Area(channels, format.width)];
      && (r.Some? <==> Decodable(frame, format, channels))
      && (r.Some? ==>
            && |r.value| == channels
            && forall c :: 0 <= c < channels ==> r.value[c] == before[c] + [SampleValue(frame, format, channels, c)])
  {
    hide Area;
    ghost var frame := bytes[start..start + Area(channels, format.width)];
    var after := before;
    for c := 0 to channels
      invariant |after| == channels
      invariant forall d :: 0 <= d < c ==> format.decode(SampleOf(frame, format.width, channels, d)).Some?
      invariant forall d :: 0 <= d < c ==>
        after[d] == before[d] + [format.decode(SampleOf(frame, format.width, channels, d)).value]
      invariant forall d :: c <= d < channels ==> after[d] == before[d]
    {
      AreaMonotone(c + 1, format.width, channels, format.width);
      AreaStep(c, format.width);
      var sampleStart := start + Area(c, format.width);
      var sample := format.decode(bytes[sampleStart..sampleStart + format.width]);
      SliceOfSlice(bytes, start, Area(channels, format.width), Area(c, format.width), format.width);
      assert bytes[sampleStart..sampleStart + format.width] == SampleOf(frame, format.width, channels, c);
      if sample == None { return None; }
      after := after[c := after[c] + [sample.value]];
    }
    r := Some(after);
  }

  /** All complete frames of a byte string. */
  method Deinterleave<S>(bytes: Bytes, frames: nat, format: Format<S>, channels: nat) returns (r: Option<seq<seq<S>>>)
    requires Area(channels, format.width) > 0 && frames == |Frames(bytes, Area(channels, format.width))|
    ensures var whole := Frames(bytes, Area(channels, format.width));
      && FramesOk(whole, format.width, channels)
      && (r.Some? <==> AllDecodable(whole, format, channels))
      && (r.Some? ==> r.value == Channels(whole, format, channels))
  {
    hide Area, Decodable, SampleValue;
    var size := Area(channels, format.width);
    ghost var whole := Frames(bytes, size);
    var output: seq<seq<S>> := seq(channels, c => []);
    for f := 0 to frames
      invariant |output| == channels
      invariant forall g :: 0 <= g < f ==> Decodable(whole[g], format, channels)
      invariant forall c :: 0 <= c < channels ==> |output[c]| == f
      invariant forall c, g :: 0 <= c < channels && 0 <= g < f ==>
        output[c][g] == SampleValue(whole[g], format, channels, c)
    {
      FrameAt(bytes, size, f);
      var next := DecodeFrame(bytes, Area(f, size), format, channels, output);
      if next == None { return None; }
      output := next.value;
    }
    forall c | 0 <= c < channels ensures output[c] == Channel(whole, format, channels, c) {
    }
    assert output == Channels(whole, format, channels);
    r := Some(output);
  }

  // ---- The stateful decoder ----------------------------------------------------------

  datatype DecodeError = BadSample | IncompleteFrame(bytes: nat) | NotWholeSamples

  class FrameDecoder<S> {
    const format: Format<S>
    const channels: nat
    const frameBytes: nat
    var remainder: Bytes
    ghost var input: Bytes

    ghost predicate Valid()
      reads this
    {
      channels > 0 && frameBytes == Area(channels, format.width) > 0 && remainder == Rest(input, frameBytes)
    }

    constructor (format: Format<S>, channels: nat)
      requires channels > 0 && format.width > 0
      ensures Valid() && input == [] && this.format == format && this.channels == channels
    {
      AreaMonotone(1, 1, channels, format.width);
      this.format, this.channels, this.frameBytes := format, channels, Area(channels, format.width);
      remainder, input := [], [];
    }

    /** The frames completed by these bytes, or nothing when none is; an incomplete frame is kept. */
    method Push(bytes: Bytes) returns (r: Result<Option<seq<seq<S>>>, DecodeError>)
      requires Valid()
      modifies this
      ensures Valid() && input == old(input) + bytes
      ensures var whole := Frames(old(remainder) + bytes, frameBytes);
        && Frames(input, frameBytes) == Frames(old(input), frameBytes) + whole
        && FramesOk(whole, format.width, channels)
        && r == if whole == [] then Ok(None)
                else if AllDecodable(whole, format, channels) then Ok(Some(Channels(whole, format, channels)))
                else Err(BadSample)
    {
      hide Area, AllDecodable;
      FramesJoin(input, bytes, frameBytes);
      var combined := remainder + bytes;
      FramesByDivision(combined, frameBytes);
      var frames := |combined| / frameBytes;
      remainder := combined[Area(frames, frameBytes)..];
      input := input + bytes;
      if frames == 0 { return Ok(None); }
      var decoded := Deinterleave(combined, frames, format, channels);
      r := if decoded == None then Err(BadSample) else Ok(decoded);
    }

    /** Succeeds exactly on whole frames. */
    method Finish() returns (r: Result<(), DecodeError>)
      requires Valid()
      ensures r == if Rest(input, frameBytes) == [] then Ok(()) else Err(IncompleteFrame(|Rest(input, frameBytes)|))
    {
      r := if remainder == [] then Ok(()) else Err(IncompleteFrame(|remainder|));
    }
  }

  lemma FramesAllOk(bytes: Bytes, width: nat, channels: nat)
    requires Area(channels, width) > 0
    ensures FramesOk(Frames(bytes, Area(channels, width)), width, channels)
  {
  }

  lemma DecodableJoin<S>(a: seq<Bytes>, b: seq<Bytes>, format: Format<S>, channels: nat)
    requires FramesOk(a, format.width, channels) && FramesOk(b, format.width, channels)
    ensures FramesOk(a + b, format.width, channels)
    ensures AllDecodable(a + b, format, channels) <==>
      AllDecodable(a, format, channels) && AllDecodable(b, format, channels)
  {
    hide Decodable, FrameOk;
    var both := a + b;
    assert forall f :: 0 <= f < |a| ==> both[f] == a[f];
    assert forall f :: 0 <= f < |b| ==> both[|a| + f] == b[f];
  }

  lemma ChannelJoin<S>(a: seq<Bytes>, b: seq<Bytes>, format: Format<S>, channels: nat, c: nat)
    requires FramesOk(a, format.width, channels) && FramesOk(b, format.width, channels)
      && FramesOk(a + b, format.width, channels)
    requires AllDecodable(a, format, channels) && AllDecodable(b, format, channels)
      && AllDecodable(a + b, format, channels)
    requires c < channels
    ensures Channel(a + b, format, channels, c) == Channel(a, format, channels, c) + Channel(b, format, channels, c)
  {
    hide SampleValue, Decodable, FrameOk;
  }

  /** Each channel followed by what a push added to it. */
  function Appended<S>(target: seq<seq<S>>, chunk: seq<seq<S>>): (r: seq<seq<S>>)
    requires |target| == |chunk|
    ensures |r| == |target| && forall c :: 0 <= c < |r| ==> r[c] == target[c] + chunk[c]
  {
    seq(|target|, c requires 0 <= c < |target| => target[c] + chunk[c])
  }

  /** Whatever the partition, the decoded channels are those of the concatenated bytes: it succeeds exactly when those
      are whole frames of decodable samples. */
  method DecodeChunks<S>(format: Format<S>, channels: nat, chunks: seq<Bytes>)
    returns (r: Result<seq<seq<S>>, DecodeError>)
    requires channels > 0 && format.width > 0
    ensures var size := Area(channels, format.width); var all := Flatten(chunks);
      && size > 0 && FramesOk(Frames(all, size), format.width, channels)
      && (r.Ok? <==> Rest(all, size) == [] && AllDecodable(Frames(all, size), format, channels))
      && (r.Ok? ==> r.value == Channels(Frames(all, size), format, channels))
  {
    hide Decodable, SampleValue, Area, AllDecodable;
    var decoder := new FrameDecoder<S>(format, channels);
    ghost var size := decoder.frameBytes;
    var output: seq<seq<S>> := seq(channels, c => []);
    NoFrames(size, format, channels);
    for i := 0 to |chunks|
      invariant decoder.Valid() && fresh(decoder) && decoder.format == format && decoder.channels == channels
      invariant decoder.input == Flatten(chunks[..i])
      invariant AllDecodable(Frames(decoder.input, size), format, channels)
      invariant output == Channels(Frames(decoder.input, size), format, channels)
    {
      ghost var before, pending := decoder.input, decoder.remainder;
      assert chunks[..i + 1][..i] == chunks[..i];
      var pushed := decoder.Push(chunks[i]);
      ghost var whole := Frames(pending + chunks[i], size);
      assert Frames(decoder.input, size) == Frames(before, size) + whole;
      DecodableJoin(Frames(before, size), whole, format, channels);
      if pushed.Err? {
        StaysUndecodable(chunks, i + 1, format, channels);
        return Err(pushed.error);
      }
      if pushed.value == None {
        assert Frames(before, size) + whole == Frames(before, size);
      } else {
        forall c | 0 <= c < channels
          ensures Channel(Frames(before, size) + whole, format, channels, c) ==
                  Channel(Frames(before, size), format, channels, c) + Channel(whole, format, channels, c)
        {
          ChannelJoin(Frames(before, size), whole, format, channels, c);
        }
        output := Appended(output, pushed.value.value);
        assert output == Channels(Frames(decoder.input, size), format, channels);
      }
    }
    assert chunks[..|chunks|] == chunks;
    var finished := decoder.Finish();
    r := if finished.Err? then Err(finished.error) else Ok(output);
  }

  lemma NoFrames<S>(size: nat, format: Format<S>, channels: nat)
    requires size > 0
    ensures Frames([], size) == [] && FramesOk([], format.width, channels) && AllDecodable([], format, channels)
  {
  }

  /** Bytes that follow cannot repair a bad sample. */
  lemma StaysUndecodable<S>(chunks: seq<Bytes>, i: nat, format: Format<S>, channels: nat)
    requires i <= |chunks| && Area(channels, format.width) > 0
    ensures var size := Area(channels, format.width);
      && FramesOk(Frames(Flatten(chunks[..i]), size), format.width, channels)
      && FramesOk(Frames(Flatten(chunks), size), format.width, channels)
      && (AllDecodable(Frames(Flatten(chunks), size), format, channels) ==>
          AllDecodable(Frames(Flatten(chunks[..i]), size), format, channels))
  {
    hide Area, AllDecodable, Flatten;
    FlattenSplit(chunks, i);
    var a := Flatten(chunks[..i]);
    var more := Flatten(chunks[i..]);
    var size := Area(channels, format.width);
    FramesJoin(a, more, size);
    DecodableJoin(Frames(a, size), Frames(Rest(a, size) + more, size), format, channels);
  }

  /** One whole channel. */
  method DecodeSamples<S>(format: Format<S>, bytes: Bytes) returns (r: Result<seq<S>, DecodeError>)
    requires format.width > 0
    ensures FramesOk(Frames(bytes, format.width), format.width, 1)
    ensures r.Ok? <==> |bytes| % format.width == 0 && AllDecodable(Frames(bytes, format.width), format, 1)
    ensures r.Ok? ==> r.value == Channel(Frames(bytes, format.width), format, 1, 0)
  {
    hide AllDecodable, SampleValue;
    AreaStep(0, format.width);
    NoFrames(format.width, format, 1);
    FramesByDivision(bytes, format.width);
    if |bytes| % format.width != 0 { return Err(NotWholeSamples); }
    if bytes == [] { return Ok([]); }
    var decoder := new FrameDecoder<S>(format, 1);
    var decoded := decoder.Push(bytes);
    assert [] + bytes == bytes;
    if decoded.Err? { return Err(decoded.error); }
    var finished := decoder.Finish();
    // The length was checked: nothing can be left over, and something was decoded.
    assert finished.Ok? && decoded.value.Some?;
    r := Ok(decoded.value.value[0]);
  }

  // ---- Interleaving channels and decoding them back ------------------------------------

  predicate Sized(parts: seq<Bytes>, size: nat) { forall i :: 0 <= i < |parts| ==> |parts[i]| == size }

  lemma {:induction false} FlattenSized(parts: seq<Bytes>, size: nat, i: nat)
    requires Sized(parts, size) && i < |parts|
    ensures |Flatten(parts)| == Area(|parts|, size) && Area(i, size) + size <= |Flatten(parts)|
    ensures Flatten(parts)[Area(i, size)..Area(i, size) + size] == parts[i]
  {
    hide Area;
    var n := |parts| - 1;
    AreaStep(n, size);
    if n > 0 {
      FlattenSized(parts[..n], size, if i < n then i else 0);
    }
    if i < n {
      var before := Flatten(parts[..n]);
      assert (before + parts[n])[Area(i, size)..Area(i, size) + size] == before[Area(i, size)..Area(i, size) + size];
    } else {
      AreaStep(0, size);
    }
  }

  lemma OneFrame(part: Bytes, size: nat)
    requires size > 0
    ensures |part| == size ==> Frames(part, size) == [part] && Rest(part, size) == []
    ensures Frames([], size) == [] && Rest([], size) == []
  {
    if |part| == size {
      assert part[..size] == part && part[size..] == [];
    }
  }

  /** Cutting equal parts apart again. */
  lemma {:induction false} FramesOfParts(parts: seq<Bytes>, size: nat)
    requires size > 0 && Sized(parts, size)
    ensures Frames(Flatten(parts), size) == parts && Rest(Flatten(parts), size) == []
  {
    hide Frames, Rest;
    if parts == [] {
      OneFrame([], size);
    } else {
      var n := |parts| - 1;
      FramesOfParts(parts[..n], size);
      FramesJoin(Flatten(parts[..n]), parts[n], size);
      OneFrame(parts[n], size);
      assert [] + parts[n] == parts[n] && parts == parts[..n] + [parts[n]];
    }
  }

  /** The samples of all channels, frame after frame: `samples[f][c]` is sample `f` of channel `c`. */
  function Interleave(samples: seq<seq<Bytes>>): (r: seq<Bytes>)
    ensures |r| == |samples| && forall f :: 0 <= f < |r| ==> r[f] == Flatten(samples[f])
  {
    seq(|samples|, f requires 0 <= f < |samples| => Flatten(samples[f]))
  }

  /** Channels that were interleaved are decoded back: sample `f` of channel `c` is what its own bytes decode to. */
  lemma InterleavedDecodes<S>(samples: seq<seq<Bytes>>, format: Format<S>, channels: nat)
    requires channels > 0 && format.width > 0
    requires forall f :: 0 <= f < |samples| ==> |samples[f]| == channels && Sized(samples[f], format.width)
    ensures var size := Area(channels, format.width); var bytes := Flatten(Interleave(samples));
      && size > 0 && Rest(bytes, size) == [] && |Frames(bytes, size)| == |samples|
      && FramesOk(Frames(bytes, size), format.width, channels)
      && (AllDecodable(Frames(bytes, size), format, channels) <==>
            forall f, c :: 0 <= f < |samples| && 0 <= c < channels ==> format.decode(samples[f][c]).Some?)
      && (AllDecodable(Frames(bytes, size), format, channels) ==>
            forall f, c :: 0 <= f < |samples| && 0 <= c < channels ==>
              Channels(Frames(bytes, size), format, channels)[c][f] == format.decode(samples[f][c]).value)
  {
    AreaMonotone(1, 1, channels, format.width);
    hide Area, Frames, Rest, Flatten;
    var size, whole := Area(channels, format.width), Interleave(samples);
    forall f | 0 <= f < |samples| ensures |whole[f]| == size {
      FlattenSized(samples[f], format.width, 0);
    }
    FramesOfParts(whole, size);
    forall f, c | 0 <= f < |samples| && 0 <= c < channels
      ensures SampleOf(whole[f], format.width, channels, c) == samples[f][c]
    {
      FlattenSized(samples[f], format.width, c);
    }
  }
}
