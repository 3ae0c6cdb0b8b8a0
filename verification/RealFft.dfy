/** The real-input transform through a packed complex transform of half the length. */
module RealFft {
  import Factors
  import FftTheorem
  import opened Fft
  import opened FftKernel
  import opened Grids
  import opened Results
  import opened Rings

  /** The scalar operations of a sample type.  Nothing is assumed about them here. */
  datatype Scalars<!T> = Scalars(zero: T, one: T, half: T, add: (T, T) -> T, sub: (T, T) -> T,
                                 mul: (T, T) -> T, neg: T -> T, finite: T -> bool)

  datatype Complex<T> = Complex(re: T, im: T)

  function Multiply<T>(s: Scalars<T>, x: Complex<T>, y: Complex<T>): Complex<T> {
    Complex(s.sub(s.mul(x.re, y.re), s.mul(x.im, y.im)), s.add(s.mul(x.re, y.im), s.mul(x.im, y.re)))
  }

  function Add<T>(s: Scalars<T>, x: Complex<T>, y: Complex<T>): Complex<T> {
    Complex(s.add(x.re, y.re), s.add(x.im, y.im))
  }

  function Conjugate<T>(s: Scalars<T>, x: Complex<T>): Complex<T> {
    Complex(x.re, s.neg(x.im))
  }

  function ComplexOps<T>(s: Scalars<T>): Ops<Complex<T>> {
    Ops(Complex(s.zero, s.zero), Complex(s.one, s.zero),
        (x: Complex<T>, y: Complex<T>) => Add(s, x, y), (x: Complex<T>, y: Complex<T>) => Multiply(s, x, y))
  }

  datatype RealPlan<T> = RealPlan(length: nat, half: Plan<Complex<T>>, recombination: seq<Complex<T>>)

  datatype RealError = OddLength | HalfPlan(error: FftError) | Dimensions | NonFinite

  ghost predicate ValidRealPlan<T>(plan: RealPlan<T>, root: (nat, nat) -> Complex<T>) {
    && plan.length > 0 && plan.length == 2 * plan.half.length
    && ValidPlan(plan.half, root)
    && |plan.recombination| == plan.half.length + 1
    && forall k: nat :: k < |plan.recombination| ==> plan.recombination[k] == Twiddle(root, k, plan.length)
  }

  predicate RealShapes<T>(plan: RealPlan<T>) {
    && plan.length > 0 && plan.length == 2 * plan.half.length
    && Shapes(plan.half.stages, plan.half.length)
    && |plan.recombination| == plan.half.length + 1
  }

  /** Planning succeeds exactly on the nonzero even lengths whose half is plannable. */
  method NewRealPlan<T>(root: (nat, nat) -> Complex<T>, length: nat) returns (r: Result<RealPlan<T>, RealError>)
    requires length <= USIZE_MAX
    ensures r.Ok? <==> length > 0 && length % 2 == 0 && Factors.Smooth(length / 2)
    ensures r.Ok? ==> r.value.length == length && ValidRealPlan(r.value, root) && RealShapes(r.value)
  {
    hide Factors.Smooth;
    if length == 0 || length % 2 != 0 {
      return Err(OddLength);
    }
    var halfLength := length / 2;
    var half := NewPlan(root, halfLength);
    if half.Err? {
      return Err(HalfPlan(half.error));
    }
    FftTheorem.ValidPlanShapes(half.value, root);
    var recombination: seq<Complex<T>> := [];
    for k := 0 to halfLength + 1
      invariant |recombination| == k
      invariant forall i: nat :: i < k ==> recombination[i] == Twiddle(root, i, length)
    {
      recombination := recombination + [Twiddle(root, k, length)];
    }
    r := Ok(RealPlan(length, half.value, recombination));
  }

  function Packed<T>(frame: seq<T>): (z: seq<Complex<T>>)
    ensures |z| == |frame| / 2
  {
    seq(|frame| / 2, i requires 0 <= i < |frame| / 2 => Complex(frame[2 * i], frame[2 * i + 1]))
  }

  /** One output value from the half-length spectrum, operation for operation. */
  function Recombined<T>(s: Scalars<T>, spectrum: seq<Complex<T>>, factor: Complex<T>, k: nat): Complex<T>
    requires k <= |spectrum| && |spectrum| > 0
  {
    var first := spectrum[k % |spectrum|];
    var second := Conjugate(s, spectrum[(|spectrum| - k) % |spectrum|]);
    var even := Complex(s.mul(s.add(first.re, second.re), s.half), s.mul(s.add(first.im, second.im), s.half));
    var difference := Complex(s.mul(s.sub(first.re, second.re), s.half), s.mul(s.sub(first.im, second.im), s.half));
    var odd := Complex(difference.im, s.neg(difference.re));
    Add(s, even, Multiply(s, factor, odd))
  }

  function Power<T>(s: Scalars<T>, value: Complex<T>): T {
    s.add(s.mul(value.re, value.re), s.mul(value.im, value.im))
  }

  function PowerAt<T>(s: Scalars<T>, plan: RealPlan<T>, packed: seq<Complex<T>>, k: nat): T
    requires RealShapes(plan) && |packed| == plan.half.length && k <= plan.half.length
  {
    Power(s, Recombined(s, Transform(ComplexOps(s), plan.half.stages, packed), plan.recombination[k], k))
  }

  function PowerSpectrum<T>(s: Scalars<T>, plan: RealPlan<T>, packed: seq<Complex<T>>): (power: seq<T>)
    requires RealShapes(plan) && |packed| == plan.half.length
    ensures |power| == plan.half.length + 1
  {
    seq(plan.half.length + 1, k requires 0 <= k <= plan.half.length => PowerAt(s, plan, packed, k))
  }

  /** The scalar kernel: packs, transforms in place, and recombines. */
  method ComputePowerSpectrum<T>(s: Scalars<T>, plan: RealPlan<T>, frame: seq<T>, output: array<T>,
                                 buffer: array<Complex<T>>, scratch: array<Complex<T>>)
    returns (r: Result<(), RealError>)
    requires RealShapes(plan) && buffer != scratch
    modifies output, buffer, scratch
    ensures r.Err? && r.error == Dimensions <==>
            !(|frame| == plan.length && output.Length == plan.half.length + 1
              && buffer.Length == plan.half.length && scratch.Length == plan.half.length)
    ensures r.Ok? ==> (forall i :: 0 <= i < |frame| ==> s.finite(frame[i]))
                      && |frame| == plan.length && output[..] == PowerSpectrum(s, plan, Packed(frame))
    ensures r.Err? && r.error != Dimensions ==>
      r.error == NonFinite && exists i :: 0 <= i < |frame| && !s.finite(frame[i])
  {
    hide Transform, StageShape, Recombined;
    var halfLength := plan.length / 2;
    if |frame| != plan.length || output.Length != halfLength + 1 || buffer.Length != halfLength
      || scratch.Length != halfLength {
      return Err(Dimensions);
    }
    for i := 0 to |frame|
      invariant forall k :: 0 <= k < i ==> s.finite(frame[k])
    {
      if !s.finite(frame[i]) {
        return Err(NonFinite);
      }
    }
    for i := 0 to halfLength
      invariant buffer[..i] == Packed(frame)[..i]
    {
      buffer[i] := Complex(frame[2 * i], frame[2 * i + 1]);
    }
    assert buffer[..] == Packed(frame);
    var run := ForwardInPlace(ComplexOps(s), plan.half, buffer, scratch);
    ghost var spectrum := buffer[..];
    for k := 0 to halfLength + 1
      invariant buffer[..] == spectrum == Transform(ComplexOps(s), plan.half.stages, Packed(frame))
      invariant output[..k] == PowerSpectrum(s, plan, Packed(frame))[..k]
    {
      var value := RecombineAt(s, buffer, plan.recombination[k], k);
      output[k] := s.add(s.mul(value.re, value.re), s.mul(value.im, value.im));
    }
    r := Ok(());
  }

  method RecombineAt<T>(s: Scalars<T>, buffer: array<Complex<T>>, factor: Complex<T>, k: nat)
    returns (value: Complex<T>)
    requires 0 < buffer.Length && k <= buffer.Length
    ensures value == Recombined(s, buffer[..], factor, k)
  {
    var first := buffer[k % buffer.Length];
    var second := Conjugate(s, buffer[(buffer.Length - k) % buffer.Length]);
    var even := Complex(s.mul(s.add(first.re, second.re), s.half), s.mul(s.add(first.im, second.im), s.half));
    var difference := Complex(s.mul(s.sub(first.re, second.re), s.half), s.mul(s.sub(first.im, second.im), s.half));
    var odd := Complex(difference.im, s.neg(difference.re));
    value := Add(s, even, Multiply(s, factor, odd));
  }
}
