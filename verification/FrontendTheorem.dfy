/** Over the real numbers the frontend computes what a log-mel spectrogram is defined to be. */
module FrontendTheorem {
  import opened Fft
  import opened FftTheorem
  import opened DftProperties
  import opened Frontend
  import opened FrontendBatched
  import opened Grids
  import opened RealFft
  import opened RealFftTheorem
  import opened Results
  import Primitives

  // ---- The definition -------------------------------------------------------------------

  /** The sample at any position of the signal continued by reflection at both ends. */
  function Mirror(position: int, samples: nat): int {
    if position < 0 then -position else if position >= samples then 2 * (samples - 1) - position else position
  }

  /** How far the first frame starts before the first sample. */
  function Lead(d: Definition): nat { if d.centered then d.fftLength / 2 else 0 }

  /** Frame `f` starts a multiple of the hop into the signal and lies inside its continuation. */
  predicate FrameExists(d: Definition, samples: nat, f: nat) {
    Area(f, d.hopLength) + d.fftLength <= samples + 2 * Lead(d)
  }

  /** The windowed frame. */
  function FrameAt(d: Definition, window: seq<real>, samples: seq<real>, f: nat): (r: seq<real>)
    requires |window| == d.fftLength && |samples| > Lead(d) && FrameExists(d, |samples|, f)
    ensures |r| == d.fftLength
  {
    seq(d.fftLength, i requires 0 <= i < d.fftLength =>
      Times(samples[Mirror(Area(f, d.hopLength) + i - Lead(d), |samples|)], window[i]))
  }

  /** The power of the first `count` frequencies weighted by one column of the filterbank. */
  ghost function Weighted(power: nat -> real, filterbank: seq<real>, bins: nat, mels: nat, mel: nat, count: nat): real
    requires |filterbank| == Area(bins, mels) && mel < mels && count <= bins
  {
    if count == 0 then 0.0
    else
      Weighted(power, filterbank, bins, mels, mel, count - 1)
      + Times(power(count - 1), FilterAt(filterbank, bins, mels, count - 1, mel))
  }

  /** The squared moduli of the discrete Fourier transform of a frame. */
  ghost function Spectrum(root: (nat, nat) -> C, frame: seq<real>): nat -> real {
    (k: nat) => SquaredModulus(Dft(O(), root, |frame|, Signal(frame), k))
  }

  /** One log-mel value: the whole power spectrum of the windowed frame under the whole filterbank column. */
  ghost function LogMelAt(root: (nat, nat) -> C, finish: real -> real, d: Definition, w: Weights<real>,
                          samples: seq<real>, mel: nat, f: nat): real
    requires |w.window| == d.fftLength && |samples| > Lead(d) && FrameExists(d, |samples|, f)
    requires |w.filterbank| == Area(d.fftLength / 2 + 1, d.mels) && mel < d.mels
  {
    var bins := d.fftLength / 2 + 1;
    finish(Weighted(Spectrum(root, FrameAt(d, w.window, samples, f)), w.filterbank, bins, d.mels, mel, bins))
  }

  predicate NonZero(x: real) { x != 0.0 }

  // ---- A band is its column --------------------------------------------------------------

  lemma TimesZero(x: real)
    ensures Times(x, 0.0) == 0.0
  {
  }

  /** Outside its band a column is zero, so the band's energy is the weighted sum over the whole column. */
  lemma {:induction false} BandIsColumn(power: seq<real>, band: Band<real>, filterbank: seq<real>, bins: nat, mels: nat,
                                        mel: nat, spectrum: nat -> real, count: nat)
    requires |filterbank| == Area(bins, mels) && mel < mels && count <= bins == |power|
    requires BandOf(band, filterbank, NonZero, bins, mels, mel)
    requires forall k: nat :: k < bins ==> power[k] == spectrum(k)
    ensures var reached := if count <= band.first then 0
                           else if count - band.first <= |band.weights| then count - band.first else |band.weights|;
      Energy(RealScalars(), power, band, reached) == Weighted(spectrum, filterbank, bins, mels, mel, count)
  {
    hide Times, Area, FilterAt;
    if count > 0 {
      BandIsColumn(power, band, filterbank, bins, mels, mel, spectrum, count - 1);
      var weight := FilterAt(filterbank, bins, mels, count - 1, mel);
      TimesZero(spectrum(count - 1));
      if band.first < count <= band.first + |band.weights| {
        var i := count - 1 - band.first;
        assert band.weights[i] == FilterAt(filterbank, bins, mels, band.first + i, mel);
      } else {
        assert !NonZero(weight);
      }
    }
  }

  // ---- A frame is its stretch of the continued signal ------------------------------------

  lemma CenteredIsMirror(p: Processor<real>, samples: seq<real>, position: nat, lead: nat)
    requires lead == (if p.centered then p.fftLength / 2 else 0) && |samples| > lead
    requires position < |samples| + 2 * lead
    ensures 0 <= Mirror(position - lead, |samples|) < |samples|
    ensures CenteredInput(p, samples)[position] == samples[Mirror(position - lead, |samples|)]
  {
  }

  lemma FrameIsWindowed(p: Processor<real>, d: Definition, samples: seq<real>, f: nat)
    requires ValidProcessor(p) && p.s == RealScalars()
    requires p.fftLength == d.fftLength && p.hopLength == d.hopLength && p.centered == d.centered
    requires |samples| > Lead(d) && FrameExists(d, |samples|, f)
    ensures |CenteredInput(p, samples)| == |samples| + 2 * Lead(d)
    ensures Windowed(p, FrameOf(p, CenteredInput(p, samples), f)) == FrameAt(d, p.window, samples, f)
  {
    hide Times, Area, RealShapes, Mirror, CenteredInput;
    var input := CenteredInput(p, samples);
    CenteredLength(p, samples);
    var windowed, frame := Windowed(p, FrameOf(p, input, f)), FrameAt(d, p.window, samples, f);
    forall i | 0 <= i < d.fftLength ensures windowed[i] == frame[i] {
      CenteredIsMirror(p, samples, Area(f, d.hopLength) + i, Lead(d));
    }
  }

  lemma CenteredLength(p: Processor<real>, samples: seq<real>)
    requires p.centered ==> |samples| > p.fftLength / 2
    ensures |CenteredInput(p, samples)| == |samples| + 2 * if p.centered then p.fftLength / 2 else 0
  {
  }

  /** The processor a definition and its weights plan. */
  ghost predicate PlannedFrom(p: Processor<real>, root: (nat, nat) -> C, finish: real -> real, d: Definition,
                              w: Weights<real>)
  {
    && ValidProcessor(p) && ValidRealPlan(p.plan, root) && |p.bands| == d.mels
    && p.s == RealScalars() && p.finish == finish && p.window == w.window
    && p.fftLength == d.fftLength && p.hopLength == d.hopLength && p.centered == d.centered
    && |w.filterbank| == Area(d.fftLength / 2 + 1, d.mels)
    && forall m :: 0 <= m < d.mels ==> BandOf(p.bands[m], w.filterbank, NonZero, d.fftLength / 2 + 1, d.mels, m)
  }

  /** Every value the processor computes is the one the definition gives. */
  lemma MelIsDefined(p: Processor<real>, root: (nat, nat) -> C, finish: real -> real, d: Definition, w: Weights<real>,
                     samples: seq<real>, mel: nat, f: nat)
    requires RootsOfUnity(O(), root) && UnitModulus(O(), Conj, root) && PlannedFrom(p, root, finish, d, w)
    requires |samples| > Lead(d) && FrameExists(d, |samples|, f) && mel < d.mels
    ensures |CenteredInput(p, samples)| == |samples| + 2 * Lead(d)
    ensures MelOf(p, FrameOf(p, CenteredInput(p, samples), f), mel) == LogMelAt(root, finish, d, w, samples, mel, f)
  {
    FrameIsWindowed(p, d, samples, f);
    PlanLength(p);
    hide O, Conj, RootsOfUnity, UnitModulus, ValidRealPlan, RealShapes, Dft, Signal, SquaredModulus, PowerAt, Packed,
         Times, Area, FrameOf, CenteredInput, Windowed, Weighted, Energy, BandOf, FrameAt;
    var frame := FrameAt(d, p.window, samples, f);
    var power := FramePower(p, FrameOf(p, CenteredInput(p, samples), f));
    var bins := d.fftLength / 2 + 1;
    var spectrum := Spectrum(root, frame);
    forall k: nat | k < bins ensures power[k] == spectrum(k) {
      PowerSpectrumIsExact(p.plan, root, frame, k);
    }
    BandOfFits(p.bands[mel], w.filterbank, NonZero, bins, d.mels, mel);
    BandIsColumn(power, p.bands[mel], w.filterbank, bins, d.mels, mel, spectrum, bins);
  }

  /** The matrix has one column for each frame of the continued signal, and in each cell the log-mel value of the
      definition. */
  ghost predicate FeaturesAreDefined(root: (nat, nat) -> C, finish: real -> real, d: Definition, w: Weights<real>,
                                     samples: seq<real>, x: Features<real>)
    requires |w.window| == d.fftLength > 0 && |w.filterbank| == Area(d.fftLength / 2 + 1, d.mels)
  {
    && x.mels == d.mels && |x.values| == Area(d.mels, x.frames)
    && (forall f: nat :: f < x.frames <==> FrameExists(d, |samples|, f))
    && (x.frames > 0 ==> |samples| > Lead(d))
    && forall m: nat, f: nat :: m < d.mels && f < x.frames ==>
         && Cell(m, f, x.frames) < |x.values|
         && x.values[Cell(m, f, x.frames)] == LogMelAt(root, finish, d, w, samples, m, f)
  }

  lemma FeaturesDefined(p: Processor<real>, root: (nat, nat) -> C, finish: real -> real, d: Definition,
                        w: Weights<real>, samples: seq<real>, x: Features<real>)
    requires RootsOfUnity(O(), root) && UnitModulus(O(), Conj, root) && PlannedFrom(p, root, finish, d, w)
    requires |w.window| == d.fftLength > 0 && FeaturesAre(p, samples, x)
    ensures FeaturesAreDefined(root, finish, d, w, samples, x)
  {
    hide O, Conj, RootsOfUnity, UnitModulus, ValidRealPlan, RealShapes, LogMelAt, MelOf, FrameOf, CenteredInput, BandOf,
         Area, Cell;
    CenteredLength(p, samples);
    forall f: nat ensures f < x.frames <==> FrameExists(d, |samples|, f) {
      assert Area(f, p.hopLength) == Area(f, d.hopLength);
    }
    forall m: nat, f: nat | m < d.mels && f < x.frames
      ensures Cell(m, f, x.frames) < |x.values| && |samples| > Lead(d)
      ensures x.values[Cell(m, f, x.frames)] == LogMelAt(root, finish, d, w, samples, m, f)
    {
      assert FrameExists(d, |samples|, f);
      MelIsDefined(p, root, finish, d, w, samples, m, f);
    }
    if x.frames > 0 {
      assert FrameExists(d, |samples|, 0);
    }
  }

  /** Nothing is refused for its values: real numbers are finite. */
  lemma OnlyOverflow(p: Processor<real>, mode: Mode, samples: seq<real>, r: Result<Features<real>, FrontendError>)
    requires ValidProcessor(p) && p.s == RealScalars() && (p.centered ==> |samples| > p.fftLength / 2)
    requires if mode.Scalar? then ScalarIs(p, samples, r) else BatchedIs(p, samples, r)
    ensures r.Ok? || r.error == FrontendError.Overflow
  {
    hide MelOf, FrameOf, CenteredInput, Area, Cell, RealShapes, MatrixIs, FrameCount, Windowed;
  }

  /** Planning a frontend and extracting features in either mode gives the features of the definition; a centered
      signal has to be longer than its padding, and only sizes that do not fit are refused otherwise. */
  method PlanAndExtract(root: (nat, nat) -> C, finish: real -> real, d: Definition, w: Weights<real>, mode: Mode,
                        samples: seq<real>)
    returns (r: Result<Features<real>, FrontendError>)
    requires RootsOfUnity(O(), root) && UnitModulus(O(), Conj, root)
    requires d.fftLength <= USIZE_MAX && d.hopLength > 0
    requires d.clampMin < Primitives.U64_LIMIT && d.clampMax < Primitives.U64_LIMIT
    ensures Accepts(RealScalars(), NonZero, d, w) && (d.centered ==> |samples| > d.fftLength / 2) ==>
      r.Ok? || r.error == FrontendError.Overflow
    ensures r.Ok? ==>
      && Accepts(RealScalars(), NonZero, d, w)
      && |w.window| == d.fftLength > 0 && |w.filterbank| == Area(d.fftLength / 2 + 1, d.mels)
      && FeaturesAreDefined(root, finish, d, w, samples, r.value)
  {
    hide O, Conj, RootsOfUnity, UnitModulus, ValidRealPlan, RealShapes, BandOf, Accepts, ScalarIs, BatchedIs, Area,
         FeaturesAre, FeaturesAreDefined, RealScalars;
    var planned := NewProcessor(RealScalars(), root, finish, NonZero, d, w);
    if planned.Err? {
      return Err(planned.error);
    }
    AcceptedSizes(d, w);
    r := LogMel(planned.value, mode, samples);
    RealsFinite(samples);
    if r.Ok? {
      FeaturesDefined(planned.value, root, finish, d, w, samples, r.value);
    } else if d.centered ==> |samples| > d.fftLength / 2 {
      OnlyOverflow(planned.value, mode, samples, r);
    }
  }

  lemma RealsFinite(samples: seq<real>)
    ensures SamplesFinite(RealScalars(), samples)
  {
  }

  lemma AcceptedSizes(d: Definition, w: Weights<real>)
    requires d.clampMin < Primitives.U64_LIMIT && d.clampMax < Primitives.U64_LIMIT
    requires Accepts(RealScalars(), NonZero, d, w)
    ensures |w.window| == d.fftLength > 0 && |w.filterbank| == Area(d.fftLength / 2 + 1, d.mels)
  {
  }
}
