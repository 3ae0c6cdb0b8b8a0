/** Bit-level numeric conversions, proved to be correctly rounded. */
module Primitives {
  import opened Powers
  import opened Results
  import opened Rounding

  const U64_LIMIT: nat := 0x1_0000_0000_0000_0000
  const HIDDEN32: nat := 0x80_0000
  const HIDDEN64: nat := 0x10_0000_0000_0000
  const SIGN32: nat := 0x8000_0000
  const SIGN64: nat := 0x8000_0000_0000_0000

  function RoundShiftRight(value: nat, shift: nat): nat {
    if shift == 0 then value
    else if shift >= 64 then 0
    else
      var truncated := ShiftRight(value, shift);
      var remainder := value - Scaled(truncated, shift);
      var halfway := Pow2(shift - 1);
      if remainder > halfway || (remainder == halfway && truncated % 2 == 1) then truncated + 1 else truncated
  }

  /** On 64-bit values the shift rounds to nearest, ties to even, except that a shift of exactly 64
      answers zero even for values above half of the divisor. */
  lemma RoundShiftRounds(value: nat, shift: nat)
    requires value < U64_LIMIT
    ensures Rounds(value, shift, RoundShiftRight(value, shift)) <==> shift != 64 || value <= Pow2(63)
  {
    Pow2Known();
    ScaledUnits(value, shift);
    ScaledUnits(value, 0);
    if shift >= 65 {
      Pow2Monotone(65, shift);
    } else if 0 < shift < 64 {
      ShiftRounds(value, shift);
    }
    hide Pow2, Scaled, ShiftRight;
  }

  lemma ShiftRounds(value: nat, shift: nat)
    requires 0 < shift < 64
    ensures Rounds(value, shift, RoundShiftRight(value, shift))
  {
    var truncated := ShiftRight(value, shift);
    ScaledSum(truncated, 1, shift);
    ScaledUnits(1, shift);
  }

  /** Rounding keeps to the unit bounds the value lies between. */
  lemma RoundShiftBounds(value: nat, shift: nat, low: nat, high: nat)
    requires shift < 64 && Scaled(low, shift) <= value < Scaled(high, shift)
    ensures low <= RoundShiftRight(value, shift) <= high
  {
    var q := ShiftRight(value, shift);
    ScaledUnits(value, 0); ScaledUnits(low, 0); ScaledUnits(high, 0);
    ScaledMonotone(low, q + 1, shift);
    ScaledMonotone(q, high, shift);
    ScaledUnits(q, 0);
  }

  // ---- Integers to floating point ---------------------------------------------------

  /** The shared body of the integer conversions: exponent, rounding and carry. */
  function FromInteger(fractionBits: nat, bias: nat, value: nat): nat {
    if value == 0 then 0
    else
      var exponent := FloorLog2(value);
      var significand := if exponent > fractionBits then RoundShiftRight(value, exponent - fractionBits)
                         else Scaled(value, fractionBits - exponent);
      var carried := significand == Pow2(fractionBits + 1);
      var exponent' := if carried then exponent + 1 else exponent;
      var significand' := if carried then Pow2(fractionBits) else significand;
      Scaled(exponent' + bias, fractionBits) + significand' % Pow2(fractionBits)
  }

  function U64ToF32(value: nat): nat
    requires value < U64_LIMIT
  {
    FromInteger(23, 127, value)
  }

  function U64ToF64(value: nat): nat
    requires value < U64_LIMIT
  {
    FromInteger(52, 1023, value)
  }

  /** The rounded significand and its binade. */
  lemma IntegerBinade(fractionBits: nat, value: nat) returns (q: nat)
    requires 0 < value < Pow2(64) && 0 < fractionBits < 63
    ensures var k := FloorLog2(value);
            && q == (if k > fractionBits then RoundShiftRight(value, k - fractionBits)
                     else Scaled(value, fractionBits - k))
            && Pow2(fractionBits) <= q <= Pow2(fractionBits + 1)
            && (k > fractionBits ==>
                Rounds(value, k - fractionBits, q) && Scaled(Pow2(fractionBits), k - fractionBits) <= value)
            && k < 64
  {
    hide Scaled, Pow2, RoundShiftRight, ShiftRight;
    var k := FloorLog2(value);
    assert k < 64 by { if k >= 64 { Pow2Monotone(64, k); } }
    if k > fractionBits {
      var shift := k - fractionBits;
      q := RoundShiftRight(value, shift);
      ScaledPow2(fractionBits, shift);
      ScaledPow2(fractionBits + 1, shift);
      RoundShiftBounds(value, shift, Pow2(fractionBits), Pow2(fractionBits + 1));
      ShiftRounds(value, shift);
    } else {
      var shift := fractionBits - k;
      q := Scaled(value, shift);
      ScaledPow2(k, shift);
      ScaledPow2(k + 1, shift);
      ScaledMonotone(Pow2(k), value, shift);
      ScaledMonotone(value, Pow2(k + 1), shift);
    }
  }

  lemma ScaledPow2(a: nat, b: nat)
    ensures Scaled(Pow2(a), b) == Pow2(a + b)
  {
    ScaledTwice(1, a, b);
    ScaledUnits(1, a); ScaledUnits(1, a + b);
  }

  /** Composing the fields gives the code of the rounded significand in its binade. */
  lemma ComposedCode(bits: nat, e: nat, q: nat)
    requires e >= 1 && Pow2(bits) <= q <= Pow2(bits + 1)
    ensures Code(bits, e, q)
         == Scaled(if q == Pow2(bits + 1) then e + 1 else e, bits)
           + (if q == Pow2(bits + 1) then Pow2(bits) else q) % Pow2(bits)
  {
    ScaledSum(e - 1, 1, bits); ScaledSum(e, 1, bits);
    ScaledUnits(1, bits);
    var P := Pow2(bits);
    assert q < 2 * P ==> q % P == q - P;
    assert P % P == 0;
  }

  /** An integer conversion returns the nearest value of the format. */
  lemma FromIntegerNearest(f: Format, bias: nat, value: nat)
    requires value < Pow2(64) && 0 < f.fractionBits < 63 && bias > 0
    requires Scaled(bias + 65, f.fractionBits) <= f.infinity
    ensures Nearest(f, 0, Scaled(value, bias + f.fractionBits - 1), FromInteger(f.fractionBits, bias, value))
  {
    hide Scaled, Pow2, FloorLog2, Rounds, RoundShiftRight, Value, Code, Nearest, InBinade;
    var bits := f.fractionBits;
    var x := Scaled(value, bias + bits - 1);
    if value == 0 {
      ScaledUnits(0, bias + bits - 1);
      ScaledUnits(0, 0); ScaledUnits(0, bits);
      ZeroCode(bits);
      ExactIsNearest(f, 0, x, 0);
    } else {
      var k := FloorLog2(value);
      var q := IntegerBinade(bits, value);
      var e := k + bias;
      IntegerInUnits(bits, bias, value, q);
      ComposedCode(bits, e, q);
      BelowInfinity(f, bias, e, q);
      Normalized(bits, e, q);
      NearestFromRounding(f, 0, x, e, q);
    }
  }

  lemma Normalized(bits: nat, e: nat, q: nat)
    requires e >= 1 && Pow2(bits) <= q <= Pow2(bits + 1)
    ensures InBinade(bits, e, q)
  {
  }

  lemma ZeroCode(bits: nat)
    ensures Value(bits, 0) == 0
  {
    CodeParts(bits, 0, 0);
    ScaledUnits(0, bits);
  }

  lemma BelowInfinity(f: Format, bias: nat, e: nat, q: nat)
    requires 1 <= e <= bias + 63 && q <= Pow2(f.fractionBits + 1) && Scaled(bias + 65, f.fractionBits) <= f.infinity
    ensures Code(f.fractionBits, e, q) <= f.infinity
  {
    var bits := f.fractionBits;
    ScaledSum(e - 1, 2, bits);
    ScaledUnits(1, bits); ScaledDouble(1, bits);
    ScaledMonotone(e + 1, bias + 65, bits);
  }

  lemma IntegerInUnits(bits: nat, bias: nat, value: nat, q: nat)
    requires 0 < value && bias > 0
    requires var k := FloorLog2(value);
             if k > bits then Rounds(value, k - bits, q) && Scaled(Pow2(bits), k - bits) <= value
               else q == Scaled(value, bits - k)
    ensures var e := FloorLog2(value) + bias; var x := Scaled(value, bias + bits - 1);
            && Rounds(x, e - 1, q) && (q == Pow2(bits) ==> x >= Scaled(q, e - 1))
  {
    hide Scaled, Pow2, FloorLog2, Rounds;
    var k := FloorLog2(value);
    var e, unit := k + bias, bias + bits - 1;
    if k > bits {
      RoundsScales(value, k - bits, q, unit);
      ScaledTwice(Pow2(bits), k - bits, unit);
      ScaledMonotone(Scaled(Pow2(bits), k - bits), value, unit);
    } else {
      ScaledTwice(value, bits - k, e - 1);
      ExactRounds(q, e - 1);
    }
  }

  lemma U64ToF32Nearest(value: nat)
    requires value < U64_LIMIT
    ensures Nearest(BINARY32, 0, Scaled(value, 149), U64ToF32(value))
  {
    Pow2Known();
    FromIntegerNearest(BINARY32, 127, value);
  }

  lemma U64ToF64Nearest(value: nat)
    requires value < U64_LIMIT
    ensures Nearest(BINARY64, 0, Scaled(value, 1074), U64ToF64(value))
  {
    Pow2Known();
    FromIntegerNearest(BINARY64, 1023, value);
  }

  // ---- Narrowing --------------------------------------------------------------------

  // The fields of a double, and its magnitude code without the sign.
  function Exponent64(bits: nat): nat { (bits % SIGN64) / HIDDEN64 }
  function Fraction64(bits: nat): nat { bits % HIDDEN64 }
  function Magnitude64(bits: nat): nat { bits % SIGN64 }
  function Sign(bits: nat, sign: nat): nat requires sign > 0 { bits / sign }

  predicate IsNaN64(bits: nat) { Exponent64(bits) == 0x7ff && Fraction64(bits) != 0 }
  predicate IsNaN32(bits: nat) { bits % SIGN32 > BINARY32.infinity }

  function QuietPayload(fraction: nat): nat {
    var payload := ShiftRight(fraction, 29) % HIDDEN32;
    var nonzero := if payload >= 1 then payload else 1;
    if (nonzero / 0x40_0000) % 2 == 1 then nonzero else nonzero + 0x40_0000
  }

  /** The magnitude bits of the narrowed number. */
  function NarrowMagnitude(exponent: nat, fraction: nat): nat {
    if exponent == 0x7ff then
      if fraction == 0 then BINARY32.infinity else BINARY32.infinity + QuietPayload(fraction)
    else if exponent == 0 then 0
    else
      var unbiased: int := exponent - 1023;
      if unbiased > 127 then BINARY32.infinity
      else
        var significand := fraction + HIDDEN64;
        if unbiased >= -126 then
          var rounded := RoundShiftRight(significand, 29);
          var exponent32: nat := unbiased + 127;
          if rounded == 2 * HIDDEN32 then
            if exponent32 + 1 >= 0xff then BINARY32.infinity
            else (exponent32 + 1) * HIDDEN32 + HIDDEN32 % HIDDEN32
          else exponent32 * HIDDEN32 + rounded % HIDDEN32
        else
          var rounded := RoundShiftRight(significand, -unbiased - 97);
          if rounded >= HIDDEN32 then HIDDEN32 else rounded
  }

  function F64ToF32(bits: nat): nat
    requires bits < U64_LIMIT
  {
    Sign(bits, SIGN64) * SIGN32 + NarrowMagnitude(Exponent64(bits), Fraction64(bits))
  }

  lemma FieldsCompose(bits: nat)
    ensures Exponent64(bits) < 0x800 && Fraction64(bits) < HIDDEN64
    ensures Magnitude64(bits) == Exponent64(bits) * HIDDEN64 + Fraction64(bits)
  {
    var m, k := bits % SIGN64, bits / SIGN64;
    assert bits == HIDDEN64 * (2048 * k + m / HIDDEN64) + m % HIDDEN64;
    Division.QuotientRemainder(HIDDEN64, 2048 * k + m / HIDDEN64, m % HIDDEN64);
  }

  /** A double's value, in units of `2^-1074`, from its fields. */
  lemma DoubleValue(bits: nat)
    ensures Exponent64(bits) == 0 ==> Value(52, Magnitude64(bits)) == Fraction64(bits)
    ensures Exponent64(bits) > 0 ==>
      Value(52, Magnitude64(bits)) == Scaled(Fraction64(bits) + HIDDEN64, Exponent64(bits) - 1)
  {
    Pow2Known();
    FieldsCompose(bits);
    var e, f := Exponent64(bits), Fraction64(bits);
    ConstantScaled(e);
    if e == 0 {
      ScaledUnits(f, 0);
      CodeValue(52, 1, f);
    } else {
      ConstantScaled(e - 1);
      CodeValue(52, e, f + HIDDEN64);
    }
  }

  lemma ConstantScaled(e: nat)
    ensures Scaled(e, 52) == e * HIDDEN64 && Scaled(e, 23) == e * HIDDEN32
  {
    Pow2Known();
  }

  /** The narrowed magnitude as the code of a rounded significand. */
  lemma NarrowNormal(exponent: nat, fraction: nat)
    requires 897 <= exponent <= 1150 && fraction < HIDDEN64
    ensures var q := RoundShiftRight(fraction + HIDDEN64, 29);
            && Pow2(23) <= q <= Pow2(24) && Scaled(Pow2(23), 29) <= fraction + HIDDEN64
            && NarrowMagnitude(exponent, fraction) == Code(23, exponent - 896, q)
            && Code(23, exponent - 896, q) <= BINARY32.infinity
  {
    hide RoundShiftRight;
    Pow2Known();
    var q := RoundShiftRight(fraction + HIDDEN64, 29);
    ScaledPow2(23, 29); ScaledPow2(24, 29);
    RoundShiftBounds(fraction + HIDDEN64, 29, Pow2(23), Pow2(24));
    ConstantScaled(exponent - 897);
    hide Pow2, Scaled;
  }

  lemma NarrowSubnormal(exponent: nat, fraction: nat)
    requires 1 <= exponent <= 896 && fraction < HIDDEN64
    ensures var q := RoundShiftRight(fraction + HIDDEN64, 926 - exponent);
            q <= Pow2(23) && NarrowMagnitude(exponent, fraction) == Code(23, 1, q)
  {
    Pow2Known();
    var shift := 926 - exponent;
    ScaledUnits(0, 23); ScaledUnits(0, shift);
    if shift < 64 {
      ScaledPow2(23, shift);
      Pow2Monotone(53, 23 + shift);
      RoundShiftBounds(fraction + HIDDEN64, shift, 0, Pow2(23));
    }
    hide RoundShiftRight;
  }

  /** Narrowing is correctly rounded: the result is the nearest single, ties to even, whether it
      is normal, subnormal, carried into the next binade, or overflows to infinity. */
  lemma NarrowNearest(bits: nat)
    requires bits < U64_LIMIT && Exponent64(bits) < 0x7ff
    ensures Nearest(BINARY32, 925, Value(52, Magnitude64(bits)), NarrowMagnitude(Exponent64(bits), Fraction64(bits)))
  {
    hide Exponent64, Fraction64, Magnitude64, Value, Nearest, Scaled, Pow2, RoundShiftRight;
    Pow2Known();
    FieldsCompose(bits);
    DoubleValue(bits);
    var e, f, x := Exponent64(bits), Fraction64(bits), Value(52, Magnitude64(bits));
    if e == 0 {
      NarrowTiny(f);
    } else if e > 1150 {
      NarrowHuge(e, f);
    } else if e >= 897 {
      NarrowRounded(e, f, e - 896, 29);
    } else {
      NarrowRounded(e, f, 1, 926 - e);
    }
  }

  lemma NarrowRounded(exponent: nat, fraction: nat, e: nat, shift: nat)
    requires 1 <= exponent <= 1150 && fraction < HIDDEN64
    requires if exponent >= 897 then e == exponent - 896 && shift == 29 else e == 1 && shift == 926 - exponent
    ensures Nearest(BINARY32, 925, Scaled(fraction + HIDDEN64, exponent - 1), NarrowMagnitude(exponent, fraction))
  {
    Pow2Known();
    if exponent >= 897 { NarrowNormal(exponent, fraction); } else { NarrowSubnormal(exponent, fraction); }
    var significand := fraction + HIDDEN64;
    var q := RoundShiftRight(significand, shift);
    RoundShiftRounds(significand, shift);
    RoundsScales(significand, shift, q, exponent - 1);
    ScaledTwice(Pow2(23), shift, exponent - 1);
    hide Scaled, Pow2, NarrowMagnitude, RoundShiftRight;
    if exponent >= 897 { ScaledMonotone(Scaled(Pow2(23), shift), significand, exponent - 1); }
    NearestFromRounding(BINARY32, 925, Scaled(significand, exponent - 1), e, q);
  }

  lemma NarrowTiny(fraction: nat)
    requires fraction < HIDDEN64
    ensures Nearest(BINARY32, 925, fraction, 0)
  {
    Pow2Known();
    Pow2Monotone(53, 925);
    ScaledUnits(0, 925); ScaledUnits(0, 23);
    hide Scaled, Pow2;
    NearestFromRounding(BINARY32, 925, fraction, 1, 0);
  }

  lemma NarrowHuge(exponent: nat, fraction: nat)
    requires exponent > 1150
    ensures Nearest(BINARY32, 925, Scaled(fraction + HIDDEN64, exponent - 1), BINARY32.infinity)
  {
    InfinityValue();
    hide Scaled, Pow2, Value;
    ScaledPow2(52, exponent - 1);
    Pow2Monotone(1202, 52 + (exponent - 1));
    ScaledMonotone(HIDDEN64, fraction + HIDDEN64, exponent - 1);
    OverflowIsNearest(BINARY32, 925, Scaled(fraction + HIDDEN64, exponent - 1));
  }

  lemma InfinityValue()
    ensures Scaled(Value(23, BINARY32.infinity), 925) == Pow2(1202) && HIDDEN64 == Pow2(52)
  {
    Pow2Known();
    ConstantScaled(254);
    CodeValue(23, 255, HIDDEN32);
    hide Scaled, Pow2, Value;
    ScaledTwice(HIDDEN32, 254, 925);
    ScaledPow2(23, 1179);
  }

  // ---- Consequences -----------------------------------------------------------------

  /** Sign, infinities and quiet NaNs are carried over. */
  lemma NarrowClasses(bits: nat)
    requires bits < U64_LIMIT
    ensures Sign(F64ToF32(bits), SIGN32) == Sign(bits, SIGN64)
    ensures F64ToF32(bits) % SIGN32 == NarrowMagnitude(Exponent64(bits), Fraction64(bits))
    ensures IsNaN64(bits) <==> IsNaN32(F64ToF32(bits))
    ensures Exponent64(bits) == 0x7ff && Fraction64(bits) == 0 ==> F64ToF32(bits) % SIGN32 == BINARY32.infinity
  {
    FieldsCompose(bits);
    var e, f := Exponent64(bits), Fraction64(bits);
    if e < 0x7ff {
      NarrowNearest(bits);
    }
    hide Exponent64, Fraction64, NarrowMagnitude;
    NarrowBounded(e, f);
  }

  lemma NarrowBounded(exponent: nat, fraction: nat)
    ensures exponent == 0x7ff && fraction != 0 ==> BINARY32.infinity < NarrowMagnitude(exponent, fraction) < SIGN32
    ensures exponent == 0x7ff && fraction == 0 ==> NarrowMagnitude(exponent, fraction) == BINARY32.infinity
  {
  }

  /** A larger finite magnitude never narrows to a smaller one. */
  lemma NarrowMonotone(a: nat, b: nat)
    requires a < U64_LIMIT && b < U64_LIMIT && Exponent64(a) < 0x7ff && Exponent64(b) < 0x7ff
    requires Magnitude64(a) <= Magnitude64(b)
    ensures F64ToF32(a) % SIGN32 <= F64ToF32(b) % SIGN32
  {
    NarrowNearest(a);
    NarrowNearest(b);
    NarrowClasses(a);
    NarrowClasses(b);
    if Magnitude64(a) < Magnitude64(b) {
      ValueMonotone(52, Magnitude64(a), Magnitude64(b));
    }
    hide Value, NarrowMagnitude, Exponent64, Fraction64, Magnitude64, F64ToF32;
    NearestMonotone(BINARY32, 925, Value(52, Magnitude64(a)), Value(52, Magnitude64(b)),
                    NarrowMagnitude(Exponent64(a), Fraction64(a)), NarrowMagnitude(Exponent64(b), Fraction64(b)));
  }

  /** The double with the sign and the value of a single that is not a NaN. */
  ghost predicate Widens(bits: nat, single: nat) {
    && Sign(single, SIGN32) == Sign(bits, SIGN64)
    && if single % SIGN32 == BINARY32.infinity then Exponent64(bits) == 0x7ff && Fraction64(bits) == 0
       else Exponent64(bits) < 0x7ff && Value(52, Magnitude64(bits)) == Scaled(Value(23, single % SIGN32), 925)
  }

  /** Narrowing a widened single, finite or infinite, gives that single back. */
  lemma NarrowUndoesWidening(bits: nat, single: nat)
    requires bits < U64_LIMIT && single < 2 * SIGN32 && single % SIGN32 <= BINARY32.infinity && Widens(bits, single)
    ensures F64ToF32(bits) == single
  {
    NarrowClasses(bits);
    if single % SIGN32 < BINARY32.infinity {
      NarrowNearest(bits);
      ExactIsNearest(BINARY32, 925, Value(52, Magnitude64(bits)), single % SIGN32);
      hide Value, NarrowMagnitude, Exponent64, Fraction64, Magnitude64, F64ToF32, Scaled, Nearest;
      NearestUnique(BINARY32, 925, Value(52, Magnitude64(bits)),
                    NarrowMagnitude(Exponent64(bits), Fraction64(bits)), single % SIGN32);
    }
    hide F64ToF32, Exponent64, Fraction64, Magnitude64, Value;
    assert single == Sign(single, SIGN32) * SIGN32 + single % SIGN32;
    assert F64ToF32(bits) == Sign(F64ToF32(bits), SIGN32) * SIGN32 + F64ToF32(bits) % SIGN32;
  }

  lemma IntegerMonotone(a: nat, b: nat)
    requires a <= b < U64_LIMIT
    ensures U64ToF32(a) <= U64ToF32(b) && U64ToF64(a) <= U64ToF64(b)
  {
    U64ToF32Nearest(a); U64ToF32Nearest(b);
    U64ToF64Nearest(a); U64ToF64Nearest(b);
    ScaledMonotone(a, b, 149);
    ScaledMonotone(a, b, 1074);
    hide Value, U64ToF32, U64ToF64, Scaled;
    NearestMonotone(BINARY32, 0, Scaled(a, 149), Scaled(b, 149), U64ToF32(a), U64ToF32(b));
    NearestMonotone(BINARY64, 0, Scaled(a, 1074), Scaled(b, 1074), U64ToF64(a), U64ToF64(b));
  }

  // ---- Truncation -------------------------------------------------------------------

  /** Truncation of a finite nonnegative number given by its fields. */
  function TruncateFields(fractionBits: nat, bias: nat, exponent: nat, fraction: nat): Option<nat> {
    var unbiased: int := exponent - bias;
    if exponent == 0 || unbiased < 0 then Some(0)
    else
      var significand := fraction + Pow2(fractionBits);
      if unbiased >= fractionBits then
        var shift: nat := unbiased - fractionBits;
        if shift >= 64 || significand > ShiftRight(U64_LIMIT - 1, shift) then None else Some(Scaled(significand, shift))
      else Some(ShiftRight(significand, fractionBits - unbiased))
  }

  function TruncateF64(bits: nat): Option<nat> {
    if Exponent64(bits) == 0x7ff || (bits / SIGN64 == 1 && Magnitude64(bits) != 0) then None
    else TruncateFields(52, 1023, Exponent64(bits), Fraction64(bits))
  }

  /** `n` is the integer part of `x` units of `2^-unit`. */
  ghost predicate IntegerPart(x: nat, unit: nat, n: nat) {
    Scaled(n, unit) <= x < Scaled(n + 1, unit)
  }

  /** The answer is the integer part, and there is none exactly when it does not fit 64 bits. */
  lemma TruncateIsFloor(fractionBits: nat, bias: nat, exponent: nat, fraction: nat)
    requires fraction < Pow2(fractionBits) && 0 < fractionBits < 64 && 0 < bias
    ensures var x := Value(fractionBits, Scaled(exponent, fractionBits) + fraction);
            var unit := bias + fractionBits - 1;
            match TruncateFields(fractionBits, bias, exponent, fraction)
            case Some(n) => n < U64_LIMIT && IntegerPart(x, unit, n)
            case None => x >= Scaled(U64_LIMIT, unit)
  {
    hide Value, Scaled, Pow2, ShiftRight;
    var significand, unit := fraction + Pow2(fractionBits), bias + fractionBits - 1;
    FieldsValue(fractionBits, exponent, fraction);
    ScaledUnits(0, unit); ScaledUnits(1, unit);
    SignificandBound(fractionBits, fraction);
    if exponent == 0 {
      Pow2Monotone(fractionBits, unit);
    } else if exponent < bias {
      ScaledBelow(significand, fractionBits + 1, exponent - 1);
      Pow2Monotone(fractionBits + 1 + (exponent - 1), unit);
    } else if exponent - bias >= fractionBits {
      TruncateLarge(significand, fractionBits, exponent - bias - fractionBits, unit);
    } else {
      TruncateSmall(significand, fractionBits, fractionBits - (exponent - bias), exponent - 1, unit);
    }
  }

  lemma SignificandBound(bits: nat, fraction: nat)
    requires fraction < Pow2(bits)
    ensures Pow2(bits) <= fraction + Pow2(bits) < Pow2(bits + 1)
  {
  }

  lemma FieldsValue(bits: nat, exponent: nat, fraction: nat)
    requires fraction < Pow2(bits)
    ensures Value(bits, Scaled(exponent, bits) + fraction)
         == if exponent == 0 then fraction else Scaled(fraction + Pow2(bits), exponent - 1)
  {
    CodeParts(bits, exponent, fraction);
    ScaledUnits(0, bits);
  }

  lemma ScaledBelow(q: nat, a: nat, n: nat)
    requires q < Pow2(a)
    ensures Scaled(q, n) < Pow2(a + n)
  {
    ScaledMonotone(q, Pow2(a), n);
    ScaledPow2(a, n);
  }

  lemma TruncateLarge(significand: nat, fractionBits: nat, shift: nat, unit: nat)
    requires Pow2(fractionBits) <= significand < Pow2(fractionBits + 1) && fractionBits < 64
    ensures var x := Scaled(significand, shift + unit);
            if shift >= 64 || significand > ShiftRight(U64_LIMIT - 1, shift) then x >= Scaled(U64_LIMIT, unit)
            else Scaled(significand, shift) < U64_LIMIT && IntegerPart(x, unit, Scaled(significand, shift))
  {
    Pow2Known();
    var limit := ShiftRight(U64_LIMIT - 1, shift);
    var n := Scaled(significand, shift);
    ScaledTwice(significand, shift, unit);
    ScaledMonotone(significand, limit, shift);
    ScaledMonotone(limit + 1, significand, shift);
    ScaledMonotone(U64_LIMIT, n, unit);
    ScaledSum(n, 1, unit);
    ScaledUnits(1, unit);
    if shift >= 64 {
      ScaledUnits(1, fractionBits);
      ScaledMonotone(1, significand, shift);
      ScaledUnits(1, shift);
      Pow2Monotone(64, shift);
    }
    hide Scaled, ShiftRight, Pow2;
  }

  lemma TruncateSmall(significand: nat, fractionBits: nat, shift: nat, exponent: nat, unit: nat)
    requires significand < Pow2(fractionBits + 1) && fractionBits < 64 && shift + exponent == unit
    ensures ShiftRight(significand, shift) < U64_LIMIT
    ensures IntegerPart(Scaled(significand, exponent), unit, ShiftRight(significand, shift))
  {
    Pow2Known();
    var n := ShiftRight(significand, shift);
    Pow2Monotone(fractionBits + 1, 64);
    ScaledUnits(n, shift);
    ScaledMonotone(Scaled(n, shift), significand, exponent);
    ScaledMonotone(significand, Scaled(n + 1, shift), exponent);
    ScaledTwice(n, shift, exponent);
    ScaledTwice(n + 1, shift, exponent);
    hide Scaled, ShiftRight, Pow2;
  }

  lemma TruncateF64Magnitude(bits: nat)
    requires bits < U64_LIMIT && Exponent64(bits) < 0x7ff
    ensures match TruncateFields(52, 1023, Exponent64(bits), Fraction64(bits))
            case Some(n) => n < U64_LIMIT && IntegerPart(Value(52, Magnitude64(bits)), 1074, n)
            case None => Value(52, Magnitude64(bits)) >= Scaled(U64_LIMIT, 1074)
  {
    Pow2Known();
    FieldsCompose(bits);
    ConstantScaled(Exponent64(bits));
    hide Exponent64, Fraction64, Value, Scaled, TruncateFields, IntegerPart, Pow2;
    TruncateIsFloor(52, 1023, Exponent64(bits), Fraction64(bits));
  }

  /** The integer part, refused exactly for infinities, NaNs, negative numbers and those from `2^64` on. */
  lemma TruncateF64IsFloor(bits: nat)
    requires bits < U64_LIMIT
    ensures var x := Value(52, Magnitude64(bits)); var negative := bits >= SIGN64 && Magnitude64(bits) != 0;
            match TruncateF64(bits)
            case Some(n) => Exponent64(bits) != 0x7ff && !negative && n < U64_LIMIT && IntegerPart(x, 1074, n)
            case None => Exponent64(bits) == 0x7ff || negative || x >= Scaled(U64_LIMIT, 1074)
  {
    SignBit(bits);
    FieldsCompose(bits);
    hide Exponent64, Fraction64, Magnitude64, Value, Scaled, TruncateFields, IntegerPart;
    if Exponent64(bits) != 0x7ff {
      TruncateF64Magnitude(bits);
    }
  }

  lemma SignBit(bits: nat)
    requires bits < U64_LIMIT
    ensures bits / SIGN64 == 1 <==> bits >= SIGN64
  {
  }

  function Exponent32(bits: nat): nat { (bits % SIGN32) / HIDDEN32 }
  function Fraction32(bits: nat): nat { bits % HIDDEN32 }

  function TruncateF32ToUsize(bits: nat): Option<nat> {
    if Exponent32(bits) == 0xff || (bits / SIGN32 == 1 && bits % SIGN32 != 0) then None
    else TruncateFields(23, 127, Exponent32(bits), Fraction32(bits))
  }

  /** A negative number is truncated through its magnitude; the least index has no positive counterpart. */
  function Signed(negative: bool, magnitude: Option<nat>): Option<int> {
    match magnitude
    case None => None
    case Some(m) =>
      var n: int := m;
      if negative then (if n <= SIGN64 then Some(0 - n) else None) else if n < SIGN64 then Some(n) else None
  }

  function TruncateF32ToIsize(bits: nat): Option<int> {
    if Exponent32(bits) == 0xff then None
    else
      var negative := bits / SIGN32 == 1 && bits % SIGN32 != 0;
      Signed(negative, TruncateF32ToUsize(if negative then bits % SIGN32 else bits))
  }

  lemma SingleFields(bits: nat)
    ensures Exponent32(bits) < 0x100 && Fraction32(bits) < HIDDEN32
    ensures bits % SIGN32 == Exponent32(bits) * HIDDEN32 + Fraction32(bits)
    ensures Exponent32(bits % SIGN32) == Exponent32(bits) && Fraction32(bits % SIGN32) == Fraction32(bits)
  {
  }

  /** Both truncations are the same magnitude with a sign. */
  lemma TruncationParts(bits: nat)
    requires bits < 2 * SIGN32 && Exponent32(bits) < 0xff
    ensures var negative := bits / SIGN32 == 1 && bits % SIGN32 != 0;
      && TruncateF32ToIsize(bits) == Signed(negative, TruncateFields(23, 127, Exponent32(bits), Fraction32(bits)))
      && TruncateF32ToUsize(bits) == if negative then None
           else TruncateFields(23, 127, Exponent32(bits), Fraction32(bits))
  {
    hide TruncateFields, Signed;
    SingleFields(bits);
    hide Exponent32, Fraction32;
  }

  lemma TruncateF32Magnitude(bits: nat)
    requires Exponent32(bits) < 0xff
    ensures match TruncateFields(23, 127, Exponent32(bits), Fraction32(bits))
            case Some(n) => n < U64_LIMIT && IntegerPart(Value(23, bits % SIGN32), 149, n)
            case None => Value(23, bits % SIGN32) >= Scaled(U64_LIMIT, 149)
  {
    Pow2Known();
    SingleFields(bits);
    ConstantScaled(Exponent32(bits));
    hide Exponent32, Fraction32, Value, Scaled, TruncateFields, IntegerPart;
    TruncateIsFloor(23, 127, Exponent32(bits), Fraction32(bits));
  }

  /** The signed truncation is toward zero, and is refused exactly for infinities, NaNs and numbers whose integer part
      lies outside the signed 64-bit range; the unsigned one refuses what is negative or reaches `2^64`. */
  lemma TruncateF32TowardZero(bits: nat)
    requires bits < 2 * SIGN32
    ensures var x := Value(23, bits % SIGN32); var negative := bits / SIGN32 == 1 && bits % SIGN32 != 0;
            && (match TruncateF32ToIsize(bits)
                case Some(n) =>
                  && Exponent32(bits) != 0xff && Toward(x, negative, n)
                  && (if negative then 0 - n <= SIGN64 else n < SIGN64)
                case None => Exponent32(bits) == 0xff || x >= Scaled(if negative then SIGN64 + 1 else SIGN64, 149))
            && (match TruncateF32ToUsize(bits)
                case Some(n) => Exponent32(bits) != 0xff && !negative && n < U64_LIMIT && IntegerPart(x, 149, n)
                case None => Exponent32(bits) == 0xff || negative || x >= Scaled(U64_LIMIT, 149))
  {
    if Exponent32(bits) == 0xff {
      return;
    }
    SingleFields(bits);
    TruncationParts(bits);
    TruncateF32Magnitude(bits);
    hide Value, Scaled, Pow2, TruncateFields, Exponent32, Fraction32, TruncateF32ToIsize, TruncateF32ToUsize;
    var t := TruncateFields(23, 127, Exponent32(bits), Fraction32(bits));
    if t.Some? {
      ScaledMonotone(SIGN64, t.value, 149);
      ScaledMonotone(SIGN64 + 1, t.value, 149);
    } else {
      ScaledMonotone(SIGN64, U64_LIMIT, 149);
      ScaledMonotone(SIGN64 + 1, U64_LIMIT, 149);
    }
  }

  /** `n` is the magnitude's integer part with the sign. */
  ghost predicate Toward(x: nat, negative: bool, n: int) {
    if negative then n <= 0 && IntegerPart(x, 149, 0 - n) else n >= 0 && IntegerPart(x, 149, n)
  }
}
