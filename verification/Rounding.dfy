/** Round-to-nearest, ties-to-even, as section 4.3.1 of IEEE 754-2008 defines it, over the
    magnitudes of a binary format. */
module Rounding {
  import Division
  import opened Powers

  /** A binary interchange format: its fraction width and the code of positive infinity. */
  datatype Format = Format(fractionBits: nat, infinity: nat)

  const BINARY32: Format := Format(23, 0x7f80_0000)
  const BINARY64: Format := Format(52, 0x7ff0_0000_0000_0000)

  /** The value of a magnitude code, in units of the smallest subnormal.  The code of infinity
      gets the value the next binade would start with, which is where rounding overflows. */
  function Value(bits: nat, code: nat): nat {
    var exponent := ShiftRight(code, bits);
    if exponent == 0 then code else Scaled(Pow2(bits) + (code - Scaled(exponent, bits)), exponent - 1)
  }

  function Distance(a: int, b: int): nat {
    if a <= b then b - a else a - b
  }

  /** `q` units of `2^n` are nearest to `x`, and `q` is even in a tie. */
  ghost predicate Rounds(x: nat, n: nat, q: nat) {
    && 2 * Distance(x, Scaled(q, n)) <= Pow2(n)
    && (2 * Distance(x, Scaled(q, n)) == Pow2(n) ==> q % 2 == 0)
  }

  /** No code of the format is nearer to `x` (in units finer by `2^scale`) than `code`, and an
      equally near one leaves the choice to the even code. */
  ghost predicate Nearest(f: Format, scale: nat, x: nat, code: nat) {
    code <= f.infinity && forall c: nat :: c <= f.infinity ==> NoNearer(f.fractionBits, scale, x, code, c)
  }

  ghost predicate NoNearer(bits: nat, scale: nat, x: nat, code: nat, c: nat) {
    var near, other := Distance(x, Scaled(Value(bits, code), scale)), Distance(x, Scaled(Value(bits, c), scale));
    near <= other && (near == other && c != code ==> code % 2 == 0)
  }

  // ---- The codes of a format --------------------------------------------------------

  /** A significand `q` in the binade of biased exponent `e`, one past the top included. */
  ghost predicate InBinade(bits: nat, e: nat, q: nat) {
    e >= 1 && q <= Pow2(bits + 1) && (e > 1 ==> q >= Pow2(bits))
  }

  function Code(bits: nat, e: nat, q: nat): nat
    requires e >= 1
  {
    Scaled(e - 1, bits) + q
  }

  lemma CodeParts(bits: nat, e: nat, f: nat)
    requires f < Pow2(bits)
    ensures ShiftRight(Scaled(e, bits) + f, bits) == e
  {
    Division.QuotientRemainder(Pow2(bits), e, f);
  }

  lemma CodeValue(bits: nat, e: nat, q: nat)
    requires InBinade(bits, e, q)
    ensures Value(bits, Code(bits, e, q)) == Scaled(q, e - 1)
  {
    var P := Pow2(bits);
    ScaledSum(e - 1, 1, bits); ScaledSum(e, 1, bits);
    ScaledUnits(q, 0); ScaledUnits(0, bits);
    assert Pow2(bits + 1) == 2 * P;
    if q < P {
      CodeParts(bits, 0, q);
    } else if q < 2 * P {
      CodeParts(bits, e, q - P);
    } else {
      CodeParts(bits, e + 1, 0);
      ScaledDouble(P, e - 1);
    }
    hide Scaled, Pow2;
  }

  /** Every code is a significand in a binade, with room for the next one. */
  lemma CodeDecomposes(bits: nat, code: nat) returns (e: nat, q: nat)
    ensures InBinade(bits, e, q) && q < Pow2(bits + 1) && code == Code(bits, e, q)
  {
    var exponent := ShiftRight(code, bits);
    ScaledUnits(0, bits); ScaledUnits(1, bits);
    ScaledSum(exponent, 1, bits);
    if exponent == 0 {
      e, q := 1, code;
    } else {
      ScaledSum(exponent - 1, 1, bits);
      e, q := exponent, Pow2(bits) + (code - Scaled(exponent, bits));
    }
  }

  lemma ValueIncreases(bits: nat, code: nat)
    ensures Value(bits, code) < Value(bits, code + 1)
  {
    var e, q := CodeDecomposes(bits, code);
    CodeValue(bits, e, q);
    CodeValue(bits, e, q + 1);
    ScaledMonotone(q, q + 1, e - 1);
    hide Value, Scaled, Pow2;
  }

  lemma {:induction false} ValueMonotone(bits: nat, a: nat, b: nat)
    requires a < b
    ensures Value(bits, a) < Value(bits, b)
  {
    ValueIncreases(bits, b - 1);
    if a < b - 1 {
      ValueMonotone(bits, a, b - 1);
    }
  }

  lemma ScaledValueMonotone(bits: nat, scale: nat, a: nat, b: nat)
    ensures a < b ==> Scaled(Value(bits, a), scale) < Scaled(Value(bits, b), scale)
  {
    if a < b {
      ValueMonotone(bits, a, b);
      ScaledMonotone(Value(bits, a), Value(bits, b), scale);
    }
  }

  // ---- Nearest codes ----------------------------------------------------------------

  lemma NearestUnique(f: Format, scale: nat, x: nat, a: nat, b: nat)
    requires Nearest(f, scale, x, a) && Nearest(f, scale, x, b)
    ensures a == b
  {
    hide Value, Scaled;
    assert NoNearer(f.fractionBits, scale, x, a, b) && NoNearer(f.fractionBits, scale, x, b, a);
    var low, high := if a < b then a else b, if a < b then b else a;
    assert low + 1 < high ==> NoNearer(f.fractionBits, scale, x, a, low + 1);
    ScaledValueMonotone(f.fractionBits, scale, low, low + 1);
    ScaledValueMonotone(f.fractionBits, scale, low + 1, high);
  }

  lemma NearestMonotone(f: Format, scale: nat, x: nat, y: nat, a: nat, b: nat)
    requires Nearest(f, scale, x, a) && Nearest(f, scale, y, b) && x <= y
    ensures a <= b
  {
    assert NoNearer(f.fractionBits, scale, x, a, b) && NoNearer(f.fractionBits, scale, y, b, a);
    ScaledValueMonotone(f.fractionBits, scale, b, a);
    if x == y {
      NearestUnique(f, scale, x, a, b);
    }
    hide Value, Scaled, Nearest;
  }

  lemma ExactIsNearest(f: Format, scale: nat, x: nat, code: nat)
    requires code <= f.infinity && x == Scaled(Value(f.fractionBits, code), scale)
    ensures Nearest(f, scale, x, code)
  {
    forall c: nat ensures NoNearer(f.fractionBits, scale, x, code, c) {
      ScaledValueMonotone(f.fractionBits, scale, c, code);
      ScaledValueMonotone(f.fractionBits, scale, code, c);
      hide Value, Scaled;
    }
  }

  /** Beyond the largest finite magnitude the nearest code is infinity. */
  lemma OverflowIsNearest(f: Format, scale: nat, x: nat)
    requires x >= Scaled(Value(f.fractionBits, f.infinity), scale)
    ensures Nearest(f, scale, x, f.infinity)
  {
    forall c: nat | c <= f.infinity ensures NoNearer(f.fractionBits, scale, x, f.infinity, c) {
      ScaledValueMonotone(f.fractionBits, scale, c, f.infinity);
      hide Value, Scaled;
    }
  }

  /** A significand rounded within its binade yields the nearest code of the whole format,
      provided rounding did not climb to the binade from below. */
  lemma NearestFromRounding(f: Format, scale: nat, x: nat, e: nat, q: nat)
    requires f.fractionBits > 0 && InBinade(f.fractionBits, e, q) && Code(f.fractionBits, e, q) <= f.infinity
    requires Rounds(x, e - 1 + scale, q)
    requires e > 1 && q == Pow2(f.fractionBits) ==> x >= Scaled(q, e - 1 + scale)
    ensures Nearest(f, scale, x, Code(f.fractionBits, e, q))
  {
    var bits := f.fractionBits;
    var code := Code(bits, e, q);
    CodeValue(bits, e, q);
    ScaledTwice(q, e - 1, scale);
    EvenCode(bits, e, q);
    forall c: nat | c <= f.infinity ensures NoNearer(bits, scale, x, code, c) {
      if c > code {
        NextAbove(bits, scale, e, q, c);
      } else if c < code && (q > Pow2(bits) || e == 1) {
        NextBelow(bits, scale, e, q, c);
      } else {
        ScaledValueMonotone(bits, scale, c, code);
      }
      hide Value, Scaled, Pow2, Code;
    }
  }

  lemma EvenCode(bits: nat, e: nat, q: nat)
    requires bits > 0 && e >= 1
    ensures Code(bits, e, q) % 2 == q % 2
  {
    ScaledDouble(e - 1, bits - 1);
  }

  lemma NextAbove(bits: nat, scale: nat, e: nat, q: nat, c: nat)
    requires InBinade(bits, e, q) && c > Code(bits, e, q)
    ensures Scaled(Value(bits, c), scale) >= Scaled(q, e - 1 + scale) + Pow2(e - 1 + scale)
    ensures Scaled(Value(bits, c), scale) == Scaled(q, e - 1 + scale) + Pow2(e - 1 + scale) ==>
      c == Code(bits, e, q) + 1
  {
    hide Value, Scaled, Pow2;
    var code := Code(bits, e, q);
    var P := Pow2(bits);
    ScaledUnits(1, e - 1 + scale);
    ScaledSum(q, 1, e - 1 + scale);
    ScaledTwice(q + 1, e - 1, scale);
    if q < Pow2(bits + 1) {
      CodeValue(bits, e, q + 1);
    } else {
      // The top of a binade is the bottom of the next, where the step is twice as wide.
      BinadeWidth(bits);
      TopOfBinade(bits, e);
      CodeValue(bits, e + 1, P + 1);
      ScaledTwice(P + 1, e, scale);
      ScaledDouble(P + 1, e - 1 + scale);
      ScaledSum(q + 1, 1, e - 1 + scale);
    }
    ScaledValueMonotone(bits, scale, code + 1, c);
  }

  lemma BinadeWidth(bits: nat)
    ensures Pow2(bits + 1) == 2 * Pow2(bits)
  {
  }

  lemma TopOfBinade(bits: nat, e: nat)
    requires e >= 1
    ensures Code(bits, e, Pow2(bits + 1)) == Code(bits, e + 1, Pow2(bits))
    ensures InBinade(bits, e + 1, Pow2(bits)) && InBinade(bits, e + 1, Pow2(bits) + 1)
  {
    ScaledSum(e - 1, 1, bits);
    ScaledUnits(1, bits);
  }

  lemma NextBelow(bits: nat, scale: nat, e: nat, q: nat, c: nat)
    requires InBinade(bits, e, q) && c < Code(bits, e, q) && (q > Pow2(bits) || e == 1)
    ensures Scaled(Value(bits, c), scale) + Pow2(e - 1 + scale) <= Scaled(q, e - 1 + scale)
  {
    ScaledUnits(0, bits);
    hide Value, Scaled, Pow2;
    var code := Code(bits, e, q);
    assert q > 0;
    ScaledUnits(1, e - 1 + scale);
    ScaledSum(q - 1, 1, e - 1 + scale);
    ScaledTwice(q - 1, e - 1, scale);
    CodeValue(bits, e, q - 1);
    ScaledValueMonotone(bits, scale, c, code - 1);
  }

  // ---- Changing the unit ------------------------------------------------------------

  lemma RoundsScales(x: nat, n: nat, q: nat, k: nat)
    requires Rounds(x, n, q)
    ensures Rounds(Scaled(x, k), n + k, q)
  {
    ScaledTwice(q, n, k);
    ScaledTwice(1, n, k);
    ScaledUnits(1, n); ScaledUnits(1, n + k);
    var y := Scaled(q, n);
    ScaledDistance(x, y, k);
    ScaledDouble(Distance(x, y), k);
    ScaledMonotone(2 * Distance(x, y), Pow2(n), k);
    ScaledMonotone(Pow2(n), 2 * Distance(x, y), k);
    hide Scaled, Pow2;
  }

  lemma ScaledDistance(x: nat, y: nat, k: nat)
    ensures Distance(Scaled(x, k), Scaled(y, k)) == Scaled(Distance(x, y), k)
  {
    if x <= y { ScaledSum(x, y - x, k); } else { ScaledSum(y, x - y, k); }
  }

  lemma ExactRounds(q: nat, n: nat)
    ensures Rounds(Scaled(q, n), n, q)
  {
  }
}
