/** The log-mel frontend: one frame at a time, or all frames as planes. */
module Frontend {
  import Division
  import Factors
  import Primitives
  import Rounding
  import opened BatchedFft
  import opened Fft
  import opened Grids
  import opened RealFft
  import opened Results

  /** The nonzero stretch of one filterbank column. */
  datatype Band<T> = Band(first: nat, weights: seq<T>)

  /** What a model package says about its frontend; the clamps are bit patterns of doubles. */
  datatype Definition = Definition(sampleRate: nat, mels: nat, hopLength: nat, fftLength: nat, centered: bool,
                                   clampMin: nat, clampMax: nat)

  /** A window and a dense filterbank with their declared dimensions. */
  datatype Weights<T> = Weights(windowShape: seq<nat>, window: seq<T>, filterShape: seq<nat>, filterbank: seq<T>)

  /** `finish` clamps a band energy between the two singles and takes its logarithm. */
  datatype Processor<!T> = Processor(s: Scalars<T>, finish: T -> T, sampleRate: nat, fftLength: nat, hopLength: nat,
                                     centered: bool, clampMin: nat, clampMax: nat, window: seq<T>,
                                     bands: seq<Band<T>>, plan: RealPlan<T>)

  datatype FrontendError =
    | BadRate | WrongDimensions | TooShort | NotFinite | Overflow | LogMelNotFinite | EmptyBand(bin: nat)
    | NoPlan(error: RealError) | BadClamps

  predicate BandFits<T>(band: Band<T>, bins: nat) { band.weights != [] && band.first + |band.weights| <= bins }

  predicate ValidProcessor<T>(p: Processor<T>) {
    && RealShapes(p.plan) && p.plan.length == p.fftLength == |p.window|
    && p.hopLength > 0
    && forall m :: 0 <= m < |p.bands| ==> BandFits(p.bands[m], p.plan.half.length + 1)
  }

  // ---- Bands ------------------------------------------------------------------------

  /** Entry `bin` of filterbank column `mel`. */
  function FilterAt<T>(filterbank: seq<T>, bins: nat, mels: nat, bin: nat, mel: nat): T
    requires |filterbank| == Area(bins, mels) && bin < bins && mel < mels
  {
    CellInRange(bin, mel, bins, mels);
    filterbank[Cell(bin, mel, mels)]
  }

  /** The band starts and ends at nonzero entries, holds everything between them, and nothing nonzero is outside. */
  ghost predicate BandOf<T>(band: Band<T>, filterbank: seq<T>, nonzero: T -> bool, bins: nat, mels: nat, mel: nat)
    requires |filterbank| == Area(bins, mels) && mel < mels
  {
    && BandFits(band, bins)
    && nonzero(band.weights[0]) && nonzero(band.weights[|band.weights| - 1])
    && (forall i :: 0 <= i < |band.weights| ==>
        band.weights[i] == FilterAt(filterbank, bins, mels, band.first + i, mel))
    && forall bin :: 0 <= bin < bins && nonzero(FilterAt(filterbank, bins, mels, bin, mel)) ==>
         band.first <= bin < band.first + |band.weights|
  }

  method BuildBand<T>(filterbank: seq<T>, nonzero: T -> bool, bins: nat, mels: nat, mel: nat)
    returns (r: Option<Band<T>>)
    requires |filterbank| == Area(bins, mels) && mel < mels
    ensures r == None <==> forall bin :: 0 <= bin < bins ==> !nonzero(FilterAt(filterbank, bins, mels, bin, mel))
    ensures r.Some? ==> BandOf(r.value, filterbank, nonzero, bins, mels, mel)
  {
    hide Cell, Area, FilterAt;
    var firstNonzero: Option<nat>, lastNonzero := None, 0;
    for bin := 0 to bins
      invariant firstNonzero == None ==> forall b :: 0 <= b < bin ==> !nonzero(FilterAt(filterbank, bins, mels, b, mel))
      invariant firstNonzero.Some? ==>
        && firstNonzero.value <= lastNonzero < bin
        && nonzero(FilterAt(filterbank, bins, mels, firstNonzero.value, mel))
        && nonzero(FilterAt(filterbank, bins, mels, lastNonzero, mel))
        && forall b :: 0 <= b < bin && nonzero(FilterAt(filterbank, bins, mels, b, mel)) ==>
             firstNonzero.value <= b <= lastNonzero
    {
      var value := FilterAt(filterbank, bins, mels, bin, mel);
      if nonzero(value) {
        if firstNonzero == None { firstNonzero := Some(bin); }
        lastNonzero := bin;
      }
    }
    if firstNonzero == None { return None; }
    var first, weights := firstNonzero.value, [];
    for bin := first to lastNonzero + 1
      invariant |weights| == bin - first
      invariant forall i :: 0 <= i < |weights| ==> weights[i] == FilterAt(filterbank, bins, mels, first + i, mel)
    {
      weights := weights + [FilterAt(filterbank, bins, mels, bin, mel)];
    }
    r := Some(Band(first, weights));
  }

  /** A filterbank column with a nonzero entry. */
  ghost predicate Used<T>(filterbank: seq<T>, nonzero: T -> bool, bins: nat, mels: nat, mel: nat)
    requires |filterbank| == Area(bins, mels) && mel < mels
  {
    exists bin :: 0 <= bin < bins && nonzero(FilterAt(filterbank, bins, mels, bin, mel))
  }

  lemma BandOfUses<T>(band: Band<T>, filterbank: seq<T>, nonzero: T -> bool, bins: nat, mels: nat, mel: nat)
    requires |filterbank| == Area(bins, mels) && mel < mels && BandOf(band, filterbank, nonzero, bins, mels, mel)
    ensures Used(filterbank, nonzero, bins, mels, mel)
  {
    hide Area, FilterAt;
    assert band.weights[0] == FilterAt(filterbank, bins, mels, band.first + 0, mel);
  }

  method BuildBands<T>(filterbank: seq<T>, nonzero: T -> bool, bins: nat, mels: nat)
    returns (r: Result<seq<Band<T>>, FrontendError>)
    requires |filterbank| == Area(bins, mels)
    ensures r.Ok? <==> forall mel :: 0 <= mel < mels ==> Used(filterbank, nonzero, bins, mels, mel)
    ensures r.Ok? ==>
      && |r.value| == mels
      && forall mel :: 0 <= mel < mels ==> BandOf(r.value[mel], filterbank, nonzero, bins, mels, mel)
    ensures r.Err? ==>
      r.error.EmptyBand? && r.error.bin < mels && !Used(filterbank, nonzero, bins, mels, r.error.bin)
  {
    hide Cell, Area, FilterAt, BandOf;
    var bands := [];
    for mel := 0 to mels
      invariant |bands| == mel
      invariant forall m :: 0 <= m < mel ==> BandOf(bands[m], filterbank, nonzero, bins, mels, m)
      invariant forall m :: 0 <= m < mel ==> Used(filterbank, nonzero, bins, mels, m)
    {
      var band := BuildBand(filterbank, nonzero, bins, mels, mel);
      if band == None {
        assert !Used(filterbank, nonzero, bins, mels, mel);
        return Err(EmptyBand(mel));
      }
      BandOfUses(band.value, filterbank, nonzero, bins, mels, mel);
      bands := bands + [band.value];
    }
    r := Ok(bands);
  }

  /** Both clamps are finite and positive as singles, and in order; codes of positive singles are ordered like
      their values. */
  predicate ClampsOk(clampMin: nat, clampMax: nat) {
    && 0 < clampMin < Rounding.BINARY32.infinity
    && clampMin <= clampMax < Rounding.BINARY32.infinity
  }

  /** The clamps are in range exactly when their values are. */
  lemma ClampsMean(clampMin: nat, clampMax: nat)
    ensures ClampsOk(clampMin, clampMax) <==>
      && clampMin < Rounding.BINARY32.infinity && clampMax < Rounding.BINARY32.infinity
      && 0 < Rounding.Value(23, clampMin) <= Rounding.Value(23, clampMax)
  {
    ZeroValue();
    hide Rounding.Value;
    if clampMin > 0 { Rounding.ValueMonotone(23, 0, clampMin); }
    if clampMin < clampMax { Rounding.ValueMonotone(23, clampMin, clampMax); }
    if clampMax < clampMin { Rounding.ValueMonotone(23, clampMax, clampMin); }
  }

  lemma ZeroValue()
    ensures Rounding.Value(23, 0) == 0
  {
  }

  /** What a frontend needs of its definition and weights. */
  ghost predicate Accepts<T>(s: Scalars<T>, nonzero: T -> bool, d: Definition, w: Weights<T>)
    requires d.clampMin < Primitives.U64_LIMIT && d.clampMax < Primitives.U64_LIMIT
  {
    var bins := d.fftLength / 2 + 1;
    && 0 < d.sampleRate < 0x1_0000_0000
    && w.windowShape == [d.fftLength] && |w.window| == d.fftLength
    && w.filterShape == [bins, d.mels] && |w.filterbank| == Area(bins, d.mels)
    && SamplesFinite(s, w.window) && SamplesFinite(s, w.filterbank)
    && d.fftLength > 0 && d.fftLength % 2 == 0 && Factors.Smooth(d.fftLength / 2)
    && (forall mel :: 0 <= mel < d.mels ==> Used(w.filterbank, nonzero, bins, d.mels, mel))
    && ClampsOk(Primitives.F64ToF32(d.clampMin), Primitives.F64ToF32(d.clampMax))
  }

  /** Planning a frontend from its definition, a window and a dense filterbank (`bins` rows of `mels` columns). */
  method NewProcessor<T>(s: Scalars<T>, root: (nat, nat) -> Complex<T>, finish: T -> T, nonzero: T -> bool,
                         d: Definition, w: Weights<T>)
    returns (r: Result<Processor<T>, FrontendError>)
    requires d.fftLength <= USIZE_MAX && d.hopLength > 0
    requires d.clampMin < Primitives.U64_LIMIT && d.clampMax < Primitives.U64_LIMIT
    ensures r.Ok? <==> Accepts(s, nonzero, d, w)
    ensures r.Ok? ==>
      var p := r.value;
      && ValidProcessor(p) && ValidRealPlan(p.plan, root) && |p.bands| == d.mels
      && p.s == s && p.finish == finish && p.window == w.window && p.sampleRate == d.sampleRate
      && p.fftLength == d.fftLength && p.hopLength == d.hopLength && p.centered == d.centered
      && p.clampMin == Primitives.F64ToF32(d.clampMin) && p.clampMax == Primitives.F64ToF32(d.clampMax)
      && forall m :: 0 <= m < d.mels ==> BandOf(p.bands[m], w.filterbank, nonzero, d.fftLength / 2 + 1, d.mels, m)
  {
    hide Area, BandOf, Used, Factors.Smooth, ClampsOk, Primitives.F64ToF32, ValidRealPlan;
    if d.sampleRate == 0 || d.sampleRate >= 0x1_0000_0000 { return Err(BadRate); }
    if w.windowShape != [d.fftLength] { return Err(WrongDimensions); }
    var bins := d.fftLength / 2 + 1;
    if w.filterShape != [bins, d.mels] { return Err(WrongDimensions); }
    var windowFinite := CheckFinite(s, w.window);
    var filterFinite := CheckFinite(s, w.filterbank);
    if !windowFinite || !filterFinite { return Err(NotFinite); }
    if |w.window| != d.fftLength || |w.filterbank| != Area(bins, d.mels) { return Err(WrongDimensions); }
    var plan := NewRealPlan(root, d.fftLength);
    if plan.Err? { return Err(NoPlan(plan.error)); }
    var bands := BuildBands(w.filterbank, nonzero, bins, d.mels);
    if bands.Err? { return Err(bands.error); }
    var clampMin, clampMax := Primitives.F64ToF32(d.clampMin), Primitives.F64ToF32(d.clampMax);
    if !ClampsOk(clampMin, clampMax) { return Err(BadClamps); }
    forall m | 0 <= m < d.mels ensures BandFits(bands.value[m], bins) {
      BandOfFits(bands.value[m], w.filterbank, nonzero, bins, d.mels, m);
    }
    r := Ok(Processor(s, finish, d.sampleRate, d.fftLength, d.hopLength, d.centered, clampMin, clampMax, w.window,
                      bands.value, plan.value));
  }

  lemma BandOfFits<T>(band: Band<T>, filterbank: seq<T>, nonzero: T -> bool, bins: nat, mels: nat, mel: nat)
    requires |filterbank| == Area(bins, mels) && mel < mels && BandOf(band, filterbank, nonzero, bins, mels, mel)
    ensures BandFits(band, bins)
  {
  }

  predicate SamplesFinite<T>(s: Scalars<T>, samples: seq<T>) { forall i :: 0 <= i < |samples| ==> s.finite(samples[i]) }

  method CheckFinite<T>(s: Scalars<T>, samples: seq<T>) returns (ok: bool)
    ensures ok == SamplesFinite(s, samples)
  {
    for i := 0 to |samples|
      invariant forall k :: 0 <= k < i ==> s.finite(samples[k])
    {
      if !s.finite(samples[i]) { return false; }
    }
    ok := true;
  }

  // ---- Frames -----------------------------------------------------------------------

  function FrameCount<T>(p: Processor<T>, samples: nat): nat
    requires p.hopLength > 0
  {
    var effective := if p.centered then samples + p.fftLength / 2 * 2 else samples;
    if effective < p.fftLength then 0 else (effective - p.fftLength) / p.hopLength + 1
  }

  /** Reflection of index `i - padding` into the samples. */
  function Reflected(i: nat, padding: nat, samples: nat): (k: nat)
    requires samples > padding && i < samples + 2 * padding
    ensures k < samples
  {
    if i < padding then padding - i
    else if i < padding + samples then i - padding
    else 2 * samples + padding - 2 - i
  }

  /** The input as the frames see it: reflected on both sides by half a frame, or as it is. */
  function CenteredInput<T>(p: Processor<T>, samples: seq<T>): (r: seq<T>)
    requires p.centered ==> |samples| > p.fftLength / 2
    ensures |r| == if p.centered then |samples| + p.fftLength / 2 * 2 else |samples|
  {
    if !p.centered then samples
    else
      var padding := p.fftLength / 2;
      seq(|samples| + 2 * padding,
          i requires 0 <= i < |samples| + 2 * padding => samples[Reflected(i, padding, |samples|)])
  }

  method Center<T>(p: Processor<T>, samples: seq<T>) returns (r: Result<seq<T>, FrontendError>)
    ensures r == if p.centered && |samples| <= p.fftLength / 2 then Err(TooShort) else Ok(CenteredInput(p, samples))
  {
    if !p.centered { return Ok(samples); }
    var padding := p.fftLength / 2;
    if |samples| <= padding { return Err(TooShort); }
    ghost var whole := CenteredInput(p, samples);
    var padded: seq<T> := [];
    for offset := padding downto 0
      invariant |padded| == padding - offset && padded == whole[..padding - offset]
    {
      padded := padded + [samples[offset + 1]];
    }
    padded := padded + samples;
    for offset := 0 to padding
      invariant |padded| == padding + |samples| + offset && padded == whole[..padding + |samples| + offset]
    {
      padded := padded + [samples[|samples| - 2 - offset]];
    }
    assert whole[..|whole|] == whole;
    r := Ok(padded);
  }

  // ---- One log-mel value, operation for operation ------------------------------------

  function Windowed<T>(p: Processor<T>, samples: seq<T>): (r: seq<T>)
    requires |samples| == |p.window|
    ensures |r| == |samples| && forall i :: 0 <= i < |r| ==> r[i] == p.s.mul(samples[i], p.window[i])
  {
    seq(|samples|, i requires 0 <= i < |samples| => p.s.mul(samples[i], p.window[i]))
  }

  /** The band energy over its first `count` weights. */
  function Energy<T>(s: Scalars<T>, power: seq<T>, band: Band<T>, count: nat): T
    requires count <= |band.weights| && band.first + |band.weights| <= |power|
  {
    if count == 0 then s.zero
    else s.add(Energy(s, power, band, count - 1), s.mul(power[band.first + count - 1], band.weights[count - 1]))
  }

  /** Frame `f` of the centered input. */
  function FrameOf<T>(p: Processor<T>, input: seq<T>, f: nat): (r: seq<T>)
    requires ValidProcessor(p) && Area(f, p.hopLength) + p.fftLength <= |input|
    ensures |r| == p.fftLength
  {
    input[Area(f, p.hopLength)..Area(f, p.hopLength) + p.fftLength]
  }

  function FramePower<T>(p: Processor<T>, samples: seq<T>): (r: seq<T>)
    requires ValidProcessor(p) && |samples| == p.fftLength
    ensures |r| == p.plan.half.length + 1
  {
    PowerSpectrum(p.s, p.plan, Packed(Windowed(p, samples)))
  }

  function MelOf<T>(p: Processor<T>, samples: seq<T>, m: nat): T
    requires ValidProcessor(p) && |samples| == p.fftLength && m < |p.bands|
  {
    p.finish(Energy(p.s, FramePower(p, samples), p.bands[m], |p.bands[m].weights|))
  }

  predicate FramesFit<T>(p: Processor<T>, input: seq<T>, frames: nat)
    requires ValidProcessor(p)
  {
    forall f: nat :: f < frames ==> Area(f, p.hopLength) + p.fftLength <= |input|
  }

  /** The frames are all those that start at a multiple of the hop and lie inside the input. */
  ghost predicate EveryFrame<T>(p: Processor<T>, length: nat, frames: nat) {
    forall f: nat :: f < frames <==> Area(f, p.hopLength) + p.fftLength <= length
  }

  /** The count is neither short of a frame nor past the end. */
  lemma CountIsEveryFrame<T>(p: Processor<T>, samples: seq<T>)
    requires ValidProcessor(p) && (p.centered ==> |samples| > p.fftLength / 2)
    ensures EveryFrame(p, |CenteredInput(p, samples)|, FrameCount(p, |samples|))
  {
    var length := |CenteredInput(p, samples)|;
    forall f: nat ensures f < FrameCount(p, |samples|) <==> Area(f, p.hopLength) + p.fftLength <= length {
      Division.FloorAtLeast(length - p.fftLength, p.hopLength, f);
      assert Area(f, p.hopLength) == p.hopLength * f;
    }
  }

  /** A centered input that has no frame does not exist: the padding alone makes up one. */
  lemma CenteredHasFrames<T>(p: Processor<T>, samples: nat)
    requires ValidProcessor(p) && p.centered
    ensures FrameCount(p, samples) > 0
  {
  }

  /** Around the samples the input is their mirror image at either end, the end samples not repeated. */
  lemma CenteredMirrors<T>(p: Processor<T>, samples: seq<T>)
    requires p.centered && |samples| > p.fftLength / 2
    ensures var r := CenteredInput(p, samples); var pad := p.fftLength / 2; var last := pad + |samples| - 1;
      && |r| == pad + |samples| + pad && r[pad..pad + |samples|] == samples
      && (forall i: nat, j: nat :: i <= pad && i + j == 2 * pad ==> r[i] == r[j])
      && forall i: nat, j: nat :: last <= j < |r| && i + j == 2 * last ==> r[i] == r[j]
  {
  }

  /** Every frame the count promises lies inside the centered input. */
  lemma CountedFramesFit<T>(p: Processor<T>, samples: seq<T>)
    requires ValidProcessor(p) && (p.centered ==> |samples| > p.fftLength / 2)
    ensures FramesFit(p, CenteredInput(p, samples), FrameCount(p, |samples|))
  {
    var input := CenteredInput(p, samples);
    forall f: nat | f < FrameCount(p, |samples|) ensures Area(f, p.hopLength) + p.fftLength <= |input| {
      Division.FloorAtLeast(|input| - p.fftLength, p.hopLength, f);
    }
  }

  /** The scalar kernel's own check: every windowed sample of every frame is finite. */
  predicate WindowedFinite<T>(p: Processor<T>, input: seq<T>, frames: nat)
    requires ValidProcessor(p) && FramesFit(p, input, frames)
  {
    forall f: nat :: f < frames ==> SamplesFinite(p.s, Windowed(p, FrameOf(p, input, f)))
  }

  predicate MelsFinite<T>(p: Processor<T>, input: seq<T>, frames: nat)
    requires ValidProcessor(p) && FramesFit(p, input, frames)
  {
    forall f: nat, m: nat :: f < frames && m < |p.bands| ==> p.s.finite(MelOf(p, FrameOf(p, input, f), m))
  }

  /** Output cell `(m, f)` of the row-major feature matrix. */
  predicate MatrixIs<T(==)>(p: Processor<T>, input: seq<T>, frames: nat, output: seq<T>)
    requires ValidProcessor(p) && FramesFit(p, input, frames)
  {
    && |output| == Area(|p.bands|, frames)
    && forall m: nat, f: nat :: m < |p.bands| && f < frames ==>
         Cell(m, f, frames) < |output| && output[Cell(m, f, frames)] == MelOf(p, FrameOf(p, input, f), m)
  }

  // ---- One frame at a time -----------------------------------------------------------

  method ApplyWindow<T>(p: Processor<T>, samples: seq<T>, frame: array<T>)
    requires |samples| == |p.window| == frame.Length
    modifies frame
    ensures frame[..] == Windowed(p, samples)
  {
    for i := 0 to |samples|
      invariant forall k :: 0 <= k < i ==> frame[k] == Windowed(p, samples)[k]
    {
      frame[i] := p.s.mul(samples[i], p.window[i]);
    }
  }

  method BandEnergy<T>(s: Scalars<T>, power: array<T>, band: Band<T>) returns (accumulated: T)
    requires band.first + |band.weights| <= power.Length
    ensures accumulated == Energy(s, power[..], band, |band.weights|)
  {
    accumulated := s.zero;
    for offset := 0 to |band.weights|
      invariant accumulated == Energy(s, power[..], band, offset)
    {
      accumulated := s.add(accumulated, s.mul(power[band.first + offset], band.weights[offset]));
    }
  }

  /** The column of one frame; refuses non-finite samples, windowed samples and log-mel values. */
  method FrameLogMel<T>(p: Processor<T>, samples: seq<T>, output: array<T>, frame: array<T>, power: array<T>,
                        buffer: array<Complex<T>>, scratch: array<Complex<T>>)
    returns (r: Result<(), FrontendError>)
    requires ValidProcessor(p) && buffer != scratch && output !in {frame, power} && frame != power
    modifies output, frame, power, buffer, scratch
    ensures r == Err(WrongDimensions) <==>
      !(|samples| == p.fftLength && output.Length == |p.bands| && frame.Length == p.fftLength
        && power.Length == p.plan.half.length + 1 && buffer.Length == scratch.Length == p.plan.half.length)
    ensures r.Ok? || r.error != WrongDimensions ==>
      && |samples| == p.fftLength
      && (r.Ok? <==> SamplesFinite(p.s, samples) && SamplesFinite(p.s, Windowed(p, samples))
                     && forall m: nat :: m < |p.bands| ==> p.s.finite(MelOf(p, samples, m)))
    ensures r.Ok? ==> output.Length == |p.bands| && forall m: nat :: m < |p.bands| ==> output[m] == MelOf(p, samples, m)
  {
    hide Energy, PowerSpectrum, Packed, RealShapes;
    if |samples| != p.fftLength || output.Length != |p.bands| { return Err(WrongDimensions); }
    if frame.Length != p.fftLength || power.Length != p.plan.half.length + 1 || buffer.Length != p.plan.half.length
       || scratch.Length != p.plan.half.length { return Err(WrongDimensions); }
    var samplesFinite := CheckFinite(p.s, samples);
    if !samplesFinite { return Err(NotFinite); }
    ApplyWindow(p, samples, frame);
    PlanLength(p);
    var windowed := frame[..];
    var run := ComputePowerSpectrum(p.s, p.plan, windowed, power, buffer, scratch);
    if run.Err? {
      assert !SamplesFinite(p.s, windowed);
      return Err(NotFinite);
    }
    for m := 0 to |p.bands|
      invariant power[..] == FramePower(p, samples)
      invariant forall k: nat :: k < m ==> output[k] == MelOf(p, samples, k) && p.s.finite(output[k])
    {
      var accumulated := BandEnergy(p.s, power, p.bands[m]);
      output[m] := p.finish(accumulated);
      assert output[m] == MelOf(p, samples, m);
      if !p.s.finite(output[m]) { return Err(LogMelNotFinite); }
    }
    r := Ok(());
  }

  lemma PlanLength<T>(p: Processor<T>)
    requires ValidProcessor(p)
    ensures p.plan.length == 2 * p.plan.half.length == p.fftLength
  {
  }

  /** A row-major feature matrix: one row for each band, one column for each frame. */
  datatype Features<T> = Features(mels: nat, frames: nat, values: seq<T>)

  /** The matrix has one row for each band, one column for each frame of the centered input, and in each cell the
      log-mel value of its band and frame. */
  ghost predicate FeaturesAre<T>(p: Processor<T>, samples: seq<T>, x: Features<T>)
    requires ValidProcessor(p)
  {
    && x.mels == |p.bands| && (p.centered ==> |samples| > p.fftLength / 2)
    && var input := CenteredInput(p, samples);
       EveryFrame(p, |input|, x.frames) && MatrixIs(p, input, x.frames, x.values)
  }

  lemma FeaturesOf<T>(p: Processor<T>, samples: seq<T>, x: Features<T>)
    requires ValidProcessor(p) && x.mels == |p.bands| && x.frames == FrameCount(p, |samples|)
    requires x.frames == 0 ==> x.values == []
    requires x.frames > 0 ==> (p.centered ==> |samples| > p.fftLength / 2)
    requires x.frames > 0 ==>
      var input := CenteredInput(p, samples); FramesFit(p, input, x.frames) && MatrixIs(p, input, x.frames, x.values)
    ensures FeaturesAre(p, samples, x)
  {
    hide FrameCount, CenteredInput, EveryFrame, MelOf, FrameOf, Cell, RealShapes;
    if p.centered {
      CenteredHasFrames(p, |samples|);
    }
    CountIsEveryFrame(p, samples);
    if x.frames == 0 {
      AreaCommutes(|p.bands|, 0);
    }
  }

  /** What the scalar path answers. */
  ghost predicate ScalarIs<T>(p: Processor<T>, samples: seq<T>, r: Result<Features<T>, FrontendError>)
    requires ValidProcessor(p)
  {
    var frames := FrameCount(p, |samples|);
    if frames == 0 then r == Ok(Features(|p.bands|, 0, []))
    else if p.centered && |samples| <= p.fftLength / 2 then r == Err(TooShort)
    else if Area(|p.bands|, frames) > USIZE_MAX then r == Err(FrontendError.Overflow)
    else
      CountedFramesFit(p, samples);
      var input := CenteredInput(p, samples);
      && (r.Ok? <==> WindowedFinite(p, input, frames) && MelsFinite(p, input, frames))
      && (r.Ok? ==> r.value.mels == |p.bands| && r.value.frames == frames
                    && MatrixIs(p, input, frames, r.value.values))
  }

  predicate ColumnsDone<T(==)>(p: Processor<T>, input: seq<T>, frames: nat, output: seq<T>, count: nat)
    requires ValidProcessor(p) && FramesFit(p, input, frames) && count <= frames
  {
    && |output| == Area(|p.bands|, frames)
    && forall m: nat, f: nat :: m < |p.bands| && f < count ==>
         Cell(m, f, frames) < |output| && output[Cell(m, f, frames)] == MelOf(p, FrameOf(p, input, f), m)
  }

  method StoreColumn<T(==)>(p: Processor<T>, column: array<T>, output: array<T>, frames: nat, f: nat,
                            ghost input: seq<T>)
    requires ValidProcessor(p) && FramesFit(p, input, frames) && f < frames && column != output
    requires column.Length == |p.bands|
      && forall m: nat :: m < |p.bands| ==> column[m] == MelOf(p, FrameOf(p, input, f), m)
    requires ColumnsDone(p, input, frames, output[..], f)
    modifies output
    ensures ColumnsDone(p, input, frames, output[..], f + 1)
  {
    hide Cell, Area, MelOf, FrameOf, ValidProcessor;
    CellsInjective(|p.bands|, frames);
    for m := 0 to |p.bands|
      invariant ColumnsDone(p, input, frames, output[..], f)
      invariant forall k: nat :: k < m ==> output[Cell(k, f, frames)] == MelOf(p, FrameOf(p, input, f), k)
    {
      output[Cell(m, f, frames)] := column[m];
    }
  }

  /** The frame loop. */
  method LogMelColumns<T(0,==)>(p: Processor<T>, input: seq<T>, frames: nat, output: array<T>)
    returns (r: Result<(), FrontendError>)
    requires ValidProcessor(p) && FramesFit(p, input, frames) && SamplesFinite(p.s, input)
    requires output.Length == Area(|p.bands|, frames)
    modifies output
    ensures r.Ok? <==> WindowedFinite(p, input, frames) && MelsFinite(p, input, frames)
    ensures r.Ok? ==> MatrixIs(p, input, frames, output[..])
  {
    hide Area, MelOf, Windowed, RealShapes, ColumnsDone, SamplesFinite, FrameOf;
    var column, frame := new T[|p.bands|](_ => p.s.zero), new T[p.fftLength](_ => p.s.zero);
    var power, zero := new T[p.plan.half.length + 1](_ => p.s.zero), Complex(p.s.zero, p.s.zero);
    var buffer, scratch := new Complex<T>[p.plan.half.length](_ => zero), new Complex<T>[p.plan.half.length](_ => zero);
    NoColumns(p, input, frames, output[..]);
    for f := 0 to frames
      invariant ColumnsDone(p, input, frames, output[..], f)
      invariant forall g: nat :: g < f ==> FrameAccepted(p, FrameOf(p, input, g))
    {
      FrameFinite(p, input, f);
      var samples := FrameOf(p, input, f);
      var done := FrameLogMel(p, samples, column, frame, power, buffer, scratch);
      AcceptedMeans(p, input, frames, f);
      if done.Err? { return Err(done.error); }
      StoreColumn(p, column, output, frames, f, input);
    }
    AllAccepted(p, input, frames);
    AllColumns(p, input, frames, output[..]);
    r := Ok(());
  }

  predicate FrameAccepted<T>(p: Processor<T>, samples: seq<T>)
    requires ValidProcessor(p) && |samples| == p.fftLength
  {
    SamplesFinite(p.s, Windowed(p, samples)) && forall m: nat :: m < |p.bands| ==> p.s.finite(MelOf(p, samples, m))
  }

  lemma AcceptedMeans<T>(p: Processor<T>, input: seq<T>, frames: nat, f: nat)
    requires ValidProcessor(p) && FramesFit(p, input, frames) && f < frames
    ensures WindowedFinite(p, input, frames) && MelsFinite(p, input, frames) ==> FrameAccepted(p, FrameOf(p, input, f))
  {
    hide MelOf, Windowed, SamplesFinite, FrameOf, RealShapes;
  }

  lemma AllAccepted<T>(p: Processor<T>, input: seq<T>, frames: nat)
    requires ValidProcessor(p) && FramesFit(p, input, frames)
    requires forall f: nat :: f < frames ==> FrameAccepted(p, FrameOf(p, input, f))
    ensures WindowedFinite(p, input, frames) && MelsFinite(p, input, frames)
  {
    hide MelOf, Windowed, SamplesFinite, FrameOf, RealShapes;
  }

  lemma NoColumns<T>(p: Processor<T>, input: seq<T>, frames: nat, output: seq<T>)
    requires ValidProcessor(p) && FramesFit(p, input, frames) && |output| == Area(|p.bands|, frames)
    ensures ColumnsDone(p, input, frames, output, 0)
  {
  }

  lemma AllColumns<T>(p: Processor<T>, input: seq<T>, frames: nat, output: seq<T>)
    requires ValidProcessor(p) && FramesFit(p, input, frames) && ColumnsDone(p, input, frames, output, frames)
    ensures MatrixIs(p, input, frames, output)
  {
  }

  method LogMelScalar<T(0,==)>(p: Processor<T>, samples: seq<T>)
    returns (r: Result<Features<T>, FrontendError>)
    requires ValidProcessor(p) && SamplesFinite(p.s, samples)
    ensures ScalarIs(p, samples, r)
    ensures r.Ok? ==> FeaturesAre(p, samples, r.value)
  {
    hide Area, WindowedFinite, MelsFinite, MatrixIs, FramesFit, FrameCount, CenteredInput, SamplesFinite, FeaturesAre;
    var frames := FrameCount(p, |samples|);
    if frames == 0 {
      FeaturesOf(p, samples, Features(|p.bands|, 0, []));
      return Ok(Features(|p.bands|, 0, []));
    }
    var centered := Center(p, samples);
    if centered.Err? { return Err(centered.error); }
    CountedFramesFit(p, samples);
    CenteredFinite(p, samples);
    var size := CheckedProduct(|p.bands|, frames);
    if size.Err? { return Err(FrontendError.Overflow); }
    var output := new T[size.value](_ => p.s.zero);
    var done := LogMelColumns(p, centered.value, frames, output);
    if done.Err? { return Err(done.error); }
    r := Ok(Features(|p.bands|, frames, output[..]));
    FeaturesOf(p, samples, r.value);
  }

  lemma CenteredFinite<T>(p: Processor<T>, samples: seq<T>)
    requires (p.centered ==> |samples| > p.fftLength / 2) && SamplesFinite(p.s, samples)
    ensures SamplesFinite(p.s, CenteredInput(p, samples))
  {
  }

  lemma FrameFinite<T>(p: Processor<T>, input: seq<T>, f: nat)
    requires ValidProcessor(p) && Area(f, p.hopLength) + p.fftLength <= |input| && SamplesFinite(p.s, input)
    ensures SamplesFinite(p.s, FrameOf(p, input, f))
  {
  }
}
