/** Under IEEE 754's rules for infinities and NaNs the two frontend paths agree on every input. */
module FrontendAgreement {
  import opened Frontend
  import opened FrontendBatched
  import opened Grids
  import opened NonFinite
  import opened RealFft
  import opened Results

  /** Clamping and taking the logarithm keep a NaN non-finite. */
  ghost predicate KeepsNan<T(!new)>(p: Processor<T>, nan: T -> bool) {
    forall x :: nan(x) ==> !p.s.finite(p.finish(x))
  }

  lemma {:induction false} EnergyIsNan<T(!new)>(s: Scalars<T>, nan: T -> bool, power: seq<T>, band: Band<T>, count: nat)
    requires FollowsIeee(s, nan) && 1 <= count <= |band.weights| && band.first + |band.weights| <= |power|
    requires nan(power[band.first + count - 1])
    ensures nan(Energy(s, power, band, count))
  {
    hide FollowsIeee;
    var term := s.mul(power[band.first + count - 1], band.weights[count - 1]);
    Rules(s, nan, power[band.first + count - 1], band.weights[count - 1]);
    NanSum(s, nan, Energy(s, power, band, count - 1), term);
  }

  /** A non-finite windowed sample makes every log-mel value of its frame non-finite. */
  lemma BadFrameIsRefused<T(!new)>(p: Processor<T>, root: (nat, nat) -> Complex<T>, nan: T -> bool, samples: seq<T>,
                                   m: nat)
    requires ValidProcessor(p) && ValidRealPlan(p.plan, root) && FollowsIeee(p.s, nan) && KeepsNan(p, nan)
    requires |samples| == p.fftLength && m < |p.bands| && !SamplesFinite(p.s, Windowed(p, samples))
    ensures !p.s.finite(MelOf(p, samples, m))
  {
    hide FollowsIeee, ValidRealPlan, RealShapes, Energy, PowerAt;
    PlanLength(p);
    var frame := Windowed(p, samples);
    var packed := Packed(frame);
    var i :| 0 <= i < |frame| && !p.s.finite(frame[i]);
    assert packed[i / 2] == Complex(frame[2 * (i / 2)], frame[2 * (i / 2) + 1]);
    var band, power := p.bands[m], FramePower(p, samples);
    var last := band.first + |band.weights| - 1;
    assert BandFits(band, p.plan.half.length + 1);
    PowerIsNan(p.s, nan, p.plan, root, packed, i / 2, last);
    assert power[last] == PowerAt(p.s, p.plan, packed, last);
    EnergyIsNan(p.s, nan, power, band, |band.weights|);
  }

  /** Scalar and batched paths accept the same inputs and give the same features, on every input. */
  lemma PathsAlwaysAgree<T(!new)>(p: Processor<T>, root: (nat, nat) -> Complex<T>, nan: T -> bool, samples: seq<T>,
                                  scalar: Result<Features<T>, FrontendError>,
                                  batched: Result<Features<T>, FrontendError>)
    requires ValidProcessor(p) && ValidRealPlan(p.plan, root) && FollowsIeee(p.s, nan) && KeepsNan(p, nan)
      && p.bands != []
    requires ScalarIs(p, samples, scalar) && BatchedIs(p, samples, batched)
    requires BatchedFits(p, FrameCount(p, |samples|))
    ensures scalar.Ok? == batched.Ok? && (scalar.Ok? ==> scalar == batched)
  {
    hide ValidRealPlan, FollowsIeee, KeepsNan, MelOf, Windowed, FrameCount, RealShapes, Area, FrameOf, CenteredInput,
         MatrixIs, SamplesFinite;
    PathsAgree(p, samples, scalar, batched);
    var frames := FrameCount(p, |samples|);
    if frames > 0 && !(p.centered && |samples| <= p.fftLength / 2) && !WindowingStaysFinite(p, samples) {
      CountedFramesFit(p, samples);
      var input := CenteredInput(p, samples);
      var f: nat :| f < frames && !SamplesFinite(p.s, Windowed(p, FrameOf(p, input, f)));
      BadFrameIsRefused(p, root, nan, FrameOf(p, input, f), 0);
      assert !MelsFinite(p, input, frames);
    }
  }
}
