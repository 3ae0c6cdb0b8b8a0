/** Over the real numbers the packed transform yields the power spectrum of the full-length
    discrete Fourier transform. */
module RealFftTheorem {
  import Factors
  import opened DftProperties
  import opened Fft
  import opened FftKernel
  import opened FftTheorem
  import opened Grids
  import opened RealFft
  import opened Results
  import opened Rings

  /** Multiplication of reals under a name, so that a proof can hide it and use its laws. */
  function Times(x: real, y: real): real { x * y }

  function RealScalars(): Scalars<real> {
    Scalars(0.0, 1.0, 0.5, (x: real, y: real) => x + y, (x: real, y: real) => x - y,
            (x: real, y: real) => Times(x, y), (x: real) => -x, (x: real) => true)
  }

  type C = Complex<real>

  function O(): Ops<C> { ComplexOps(RealScalars()) }

  function Conj(x: C): C { Complex(x.re, -x.im) }

  const I: C := Complex(0.0, 1.0)

  lemma TimesLaws(x: real, y: real, z: real)
    ensures Times(x, y) == Times(y, x)
    ensures Times(Times(x, y), z) == Times(x, Times(y, z))
    ensures Times(x, y + z) == Times(x, y) + Times(x, z) && Times(x, y - z) == Times(x, y) - Times(x, z)
    ensures Times(x, -y) == -Times(x, y) == Times(-x, y) && Times(-x, -y) == Times(x, y)
    ensures Times(1.0, x) == x && Times(0.0, x) == 0.0
  {
  }

  lemma Operations(x: C, y: C)
    ensures O().mul(x, y) == Complex(Times(x.re, y.re) - Times(x.im, y.im), Times(x.re, y.im) + Times(x.im, y.re))
    ensures O().add(x, y) == Complex(x.re + y.re, x.im + y.im)
    ensures O().one == Complex(1.0, 0.0) && O().zero == Complex(0.0, 0.0)
  {
    hide Times;
    assert O().mul(x, y) == Multiply(RealScalars(), x, y);
  }

  lemma ProductAssociates(a: C, b: C, c: C)
    ensures O().mul(O().mul(a, b), c) == O().mul(a, O().mul(b, c))
  {
    Operations(a, b); Operations(b, c);
    Operations(O().mul(a, b), c); Operations(a, O().mul(b, c));
    hide O, Times;
    LeftProduct(a, b, c.re); LeftProduct(a, b, c.im);
    RightProduct(a.re, b, c); RightProduct(a.im, b, c);
  }

  lemma LeftProduct(a: C, b: C, z: real)
    ensures Times(Times(a.re, b.re) - Times(a.im, b.im), z) == Times(a.re, Times(b.re, z)) - Times(a.im, Times(b.im, z))
    ensures Times(Times(a.re, b.im) + Times(a.im, b.re), z) == Times(a.re, Times(b.im, z)) + Times(a.im, Times(b.re, z))
  {
    hide Times;
    var p, q, r, t := Times(a.re, b.re), Times(a.im, b.im), Times(a.re, b.im), Times(a.im, b.re);
    TimesLaws(z, p, q); TimesLaws(z, r, t); TimesLaws(p - q, z, z); TimesLaws(r + t, z, z);
    TimesLaws(p, z, z); TimesLaws(q, z, z); TimesLaws(r, z, z); TimesLaws(t, z, z);
    TimesLaws(a.re, b.re, z); TimesLaws(a.im, b.im, z); TimesLaws(a.re, b.im, z); TimesLaws(a.im, b.re, z);
  }

  lemma RightProduct(z: real, b: C, c: C)
    ensures Times(z, Times(b.re, c.re) - Times(b.im, c.im)) == Times(z, Times(b.re, c.re)) - Times(z, Times(b.im, c.im))
    ensures Times(z, Times(b.re, c.im) + Times(b.im, c.re)) == Times(z, Times(b.re, c.im)) + Times(z, Times(b.im, c.re))
  {
    hide Times;
    TimesLaws(z, Times(b.re, c.re), Times(b.im, c.im));
    TimesLaws(z, Times(b.re, c.im), Times(b.im, c.re));
  }

  lemma ComplexLaws(a: C, b: C, c: C)
    ensures Laws(O(), a, b, c)
  {
    ProductAssociates(a, b, c);
    Operations(a, b); Operations(b, a); Operations(a, c); Operations(b, c);
    Operations(a, O().add(b, c)); Operations(O().mul(a, b), O().mul(a, c));
    Operations(O().one, a); Operations(O().zero, a);
    Operations(O().add(a, b), c);
    hide O, Times;
    TimesLaws(a.re, b.re, c.re); TimesLaws(a.im, b.im, c.im); TimesLaws(a.re, b.im, c.im); TimesLaws(a.im, b.re, c.re);
  }

  lemma ComplexSemiring()
    ensures Semiring(O())
  {
    forall a: C, b: C, c: C ensures Laws(O(), a, b, c) {
      ComplexLaws(a, b, c);
    }
  }

  lemma ConjMultiplies(x: C, y: C)
    ensures Conj(O().mul(x, y)) == O().mul(Conj(x), Conj(y))
  {
    Operations(x, y);
    Operations(Conj(x), Conj(y));
    hide O, Times;
    TimesLaws(x.re, y.im, y.im); TimesLaws(x.im, y.re, y.re); TimesLaws(x.im, y.im, y.im);
  }

  lemma ConjLaws()
    ensures Homomorphic(O(), Conj)
  {
    forall x: C, y: C ensures ConjLaw(O(), Conj, x, y) {
      ConjMultiplies(x, y);
      Operations(x, y);
      Operations(Conj(x), Conj(y));
    }
  }

  // ---- Recombination ----------------------------------------------------------------

  /** Undoing the packing: `a` and `b` are the transforms of the even and the odd samples. */
  lemma RecombinationUnpacks(spectrum: seq<C>, factor: C, k: nat, a: C, b: C)
    requires |spectrum| > 0 && k <= |spectrum|
    requires spectrum[k % |spectrum|] == O().add(a, O().mul(b, I))
    requires spectrum[(|spectrum| - k) % |spectrum|] == O().add(Conj(a), O().mul(Conj(b), I))
    ensures Recombined(RealScalars(), spectrum, factor, k) == O().add(a, O().mul(b, factor))
  {
    Operations(b, I); Operations(a, O().mul(b, I));
    Operations(Conj(b), I); Operations(Conj(a), O().mul(Conj(b), I));
    Operations(factor, b); Operations(b, factor);
    Operations(a, O().mul(b, factor));
    TimesLaws(factor.re, b.re, 0.0); TimesLaws(factor.im, b.im, 0.0); TimesLaws(factor.re, b.im, 0.0);
    TimesLaws(factor.im, b.re, 0.0);
    Units(b); Units(Conj(b)); Halves(a); Halves(b);
    hide Times;
  }

  lemma Units(b: C)
    ensures Times(b.re, I.re) == 0.0 && Times(b.im, I.im) == b.im && Times(b.re, I.im) == b.re
      && Times(b.im, I.re) == 0.0
  {
  }

  lemma Halves(a: C)
    ensures Times(a.re + a.re, 0.5) == a.re && Times(a.im + a.im, 0.5) == a.im
    ensures Times(-a.re - a.re, 0.5) == -a.re && Times(-a.im - a.im, 0.5) == -a.im
  {
  }

  // ---- The power spectrum -----------------------------------------------------------

  function Signal(frame: seq<real>): nat -> C {
    (j: nat) => if j < |frame| then Complex(frame[j], 0.0) else Complex(0.0, 0.0)
  }

  function SquaredModulus(z: C): real {
    z.re * z.re + z.im * z.im
  }

  lemma PackedSample(frame: seq<real>, j: nat)
    requires j < |frame| / 2
    ensures Samples(O(), Packed(frame))(j)
      == O().add(Every(Signal(frame), 0)(j), O().mul(Every(Signal(frame), 1)(j), I))
  {
    var even, odd := Every(Signal(frame), 0)(j), Every(Signal(frame), 1)(j);
    Operations(odd, I);
    Operations(even, O().mul(odd, I));
    Units(odd);
    hide O, Times;
  }

  /** The half-length spectrum at `k`, in terms of the transforms of the even and odd samples. */
  lemma PackedSpectrum(plan: RealPlan<real>, root: (nat, nat) -> C, frame: seq<real>, k: nat)
    requires Semiring(O()) && RootsOfUnity(O(), root) && ValidRealPlan(plan, root) && RealShapes(plan)
    requires |frame| == plan.length && k < plan.half.length
    ensures Transform(O(), plan.half.stages, Packed(frame))[k]
         == O().add(Dft(O(), root, plan.half.length, Every(Signal(frame), 0), k),
                    O().mul(Dft(O(), root, plan.half.length, Every(Signal(frame), 1), k), I))
  {
    var z := Packed(frame);
    hide O, Times, Packed, Every, Signal, Semiring, RootsOfUnity, Samples, Dft;
    TransformIsDft(O(), root, plan.half, z, k);
    var samples := Samples(O(), z);
    forall j: nat | j < plan.half.length
      ensures samples(j) == O().add(Every(Signal(frame), 0)(j), O().mul(Every(Signal(frame), 1)(j), I))
    {
      PackedSample(frame, j);
    }
    DftPacked(O(), root, plan.half.length, Signal(frame), I, samples, k);
  }

  function Turns(m: nat, k: nat): nat {
    if k == 0 || k == m then 0 else 1
  }

  lemma WrapAround(m: nat, k: nat)
    requires 0 < m && k <= m
    ensures (m - k) % m + k % m == Area(m, Turns(m, k))
    ensures k % m == if k == m then 0 else k
  {
  }

  lemma MirroredHalf(root: (nat, nat) -> C, m: nat, frame: seq<real>, start: nat, k: nat)
    requires Semiring(O()) && RootsOfUnity(O(), root) && UnitModulus(O(), Conj, root)
    requires 0 < m && k <= m
    ensures Dft(O(), root, m, Every(Signal(frame), start), (m - k) % m)
         == Conj(Dft(O(), root, m, Every(Signal(frame), start), k % m))
    ensures Dft(O(), root, m, Every(Signal(frame), start), k) == Dft(O(), root, m, Every(Signal(frame), start), k % m)
  {
    var x := Every(Signal(frame), start);
    assert forall j: nat :: Conj(x(j)) == x(j);
    ConjLaws();
    WrapAround(m, k);
    hide O, Area, Turns, Conj, Dft, Semiring, RootsOfUnity, UnitModulus, Homomorphic, Every, Signal;
    DftOfReal(O(), Conj, root, m, x, k % m, (m - k) % m, Turns(m, k));
    DftOfReal(O(), Conj, root, m, x, (m - k) % m, k % m, Turns(m, k));
    DftPeriodic(O(), root, m, x);
  }

  /** For every even length with a plannable half, output `k` is the squared modulus of the
      `k`-th coefficient of the full-length transform of the frame. */
  lemma PowerSpectrumIsExact(plan: RealPlan<real>, root: (nat, nat) -> C, frame: seq<real>, k: nat)
    requires RootsOfUnity(O(), root) && UnitModulus(O(), Conj, root)
    requires ValidRealPlan(plan, root) && |frame| == plan.length && k <= plan.half.length
    ensures RealShapes(plan)
    ensures PowerAt(RealScalars(), plan, Packed(frame), k)
      == SquaredModulus(Dft(O(), root, plan.length, Signal(frame), k))
  {
    ComplexSemiring();
    ValidPlanShapes(plan.half, root);
    var m, x := plan.half.length, Signal(frame);
    hide O, Conj, Recombined, Transform, Dft, Packed, Signal, Every, Semiring, RootsOfUnity, UnitModulus, ValidPlan;
    var spectrum := Transform(O(), plan.half.stages, Packed(frame));
    var a, b := Dft(O(), root, m, Every(x, 0), k % m), Dft(O(), root, m, Every(x, 1), k % m);
    PackedSpectrum(plan, root, frame, k % m);
    PackedSpectrum(plan, root, frame, (m - k) % m);
    MirroredHalf(root, m, frame, 0, k);
    MirroredHalf(root, m, frame, 1, k);
    RecombinationUnpacks(spectrum, plan.recombination[k], k, a, b);
    TwiddleIsRoot(O(), root, k, plan.length);
    DftSplits(O(), root, m, x, k);
  }

  /** Planning the length of a frame and running the packed kernel: on every even length with a 13-smooth half the
      output is the power spectrum of the frame. */
  method PlanAndMeasure(root: (nat, nat) -> C, frame: seq<real>, output: array<real>, buffer: array<C>,
                        scratch: array<C>)
    returns (r: Result<(), RealError>)
    requires RootsOfUnity(O(), root) && UnitModulus(O(), Conj, root)
    requires buffer != scratch && |frame| <= USIZE_MAX
    modifies output, buffer, scratch
    ensures r.Ok? <==>
      && |frame| > 0 && |frame| % 2 == 0 && Factors.Smooth(|frame| / 2)
      && output.Length == |frame| / 2 + 1 && buffer.Length == |frame| / 2 == scratch.Length
    ensures r.Ok? ==> forall k :: 0 <= k < output.Length ==>
      output[k] == SquaredModulus(Dft(O(), root, |frame|, Signal(frame), k))
  {
    hide O, Conj, RootsOfUnity, UnitModulus, ValidRealPlan, RealShapes, Dft, Signal, SquaredModulus, PowerAt, Packed,
         Factors.Smooth;
    var plan := NewRealPlan(root, |frame|);
    if plan.Err? {
      return Err(plan.error);
    }
    RealPlanHalf(plan.value);
    r := ComputePowerSpectrum(RealScalars(), plan.value, frame, output, buffer, scratch);
    if r.Ok? {
      forall k | 0 <= k < output.Length
        ensures output[k] == SquaredModulus(Dft(O(), root, |frame|, Signal(frame), k))
      {
        PowerSpectrumIsExact(plan.value, root, frame, k);
        assert output[..][k] == output[k];
      }
    }
  }

  lemma RealPlanHalf(plan: RealPlan<real>)
    requires RealShapes(plan)
    ensures plan.half.length == plan.length / 2
  {
  }
}
