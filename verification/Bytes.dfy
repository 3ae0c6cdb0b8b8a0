/** Bytes and the fixed-width integers they spell. */
module Bytes {
  import Division

  type byte = x: int | 0 <= x < 256

  type Bytes = seq<byte>

  function Power256(width: nat): (r: nat)
    ensures r > 0
  {
    if width == 0 then 1 else 256 * Power256(width - 1)
  }

  lemma Power256Known()
    ensures Power256(2) == 0x1_0000 && Power256(4) == 0x1_0000_0000 && Power256(8) == 0x1_0000_0000_0000_0000
  {
    assert Power256(6) == 0x1_0000_0000_0000;
  }

  function BigEndian(n: nat, width: nat): (r: Bytes)
    ensures |r| == width
  {
    if width == 0 then [] else BigEndian(n / 256, width - 1) + [n % 256]
  }

  function FromBigEndian(bytes: Bytes): nat {
    if bytes == [] then 0 else 256 * FromBigEndian(bytes[..|bytes| - 1]) + bytes[|bytes| - 1]
  }

  lemma {:induction false} BigEndianRoundTrip(n: nat, width: nat)
    requires n < Power256(width)
    ensures FromBigEndian(BigEndian(n, width)) == n
  {
    if width > 0 {
      BigEndianRoundTrip(n / 256, width - 1);
      assert (BigEndian(n / 256, width - 1) + [n % 256])[..width - 1] == BigEndian(n / 256, width - 1);
    }
  }

  lemma {:induction false} FromBigEndianBound(bytes: Bytes)
    ensures FromBigEndian(bytes) < Power256(|bytes|)
  {
    if bytes != [] {
      FromBigEndianBound(bytes[..|bytes| - 1]);
    }
  }

  function LittleEndian(n: nat, width: nat): (r: Bytes)
    ensures |r| == width
  {
    if width == 0 then [] else [n % 256] + LittleEndian(n / 256, width - 1)
  }

  function FromLittleEndian(bytes: Bytes): nat {
    if bytes == [] then 0 else bytes[0] + 256 * FromLittleEndian(bytes[1..])
  }

  lemma {:induction false} LittleEndianRoundTrip(n: nat, width: nat)
    requires n < Power256(width)
    ensures FromLittleEndian(LittleEndian(n, width)) == n
  {
    if width > 0 {
      LittleEndianRoundTrip(n / 256, width - 1);
    }
  }

  /** The most significant byte comes first. */
  lemma {:induction false} BigEndianDigit(n: nat, width: nat, i: nat)
    requires i < width
    ensures BigEndian(n, width)[i] == n / Power256(width - 1 - i) % 256
  {
    if i < width - 1 {
      BigEndianDigit(n / 256, width - 1, i);
      QuotientSplits(n, Power256(width - 2 - i));
    }
  }

  lemma QuotientSplits(n: nat, d: nat)
    requires d > 0
    ensures n / 256 / d == n / (256 * d)
  {
    var q, r := n / (256 * d), n % (256 * d);
    assert n == 256 * (d * q) + r;
    Division.QuotientRemainder(256, d * q + r / 256, r % 256);
    assert r / 256 < d;
    Division.QuotientRemainder(d, q, r / 256);
  }

  /** The least significant byte comes first. */
  lemma {:induction false} LittleEndianDigit(n: nat, width: nat, i: nat)
    requires i < width
    ensures LittleEndian(n, width)[i] == n / Power256(i) % 256
  {
    if i > 0 {
      LittleEndianDigit(n / 256, width - 1, i - 1);
      QuotientSplits(n, Power256(i - 1));
    }
  }

  lemma LowByte(low: byte, rest: nat)
    ensures (low + 256 * rest) % 256 == low && (low + 256 * rest) / 256 == rest
  {
  }

  /** Every byte string is what its number spells. */
  lemma {:induction false} LittleEndianBack(bytes: Bytes)
    ensures FromLittleEndian(bytes) < Power256(|bytes|) && LittleEndian(FromLittleEndian(bytes), |bytes|) == bytes
  {
    if bytes != [] {
      LittleEndianBack(bytes[1..]);
      LowByte(bytes[0], FromLittleEndian(bytes[1..]));
      assert [bytes[0]] + bytes[1..] == bytes;
    }
  }

  function Twos(width: nat): (r: nat)
    ensures r > 0
  {
    if width == 0 then 1 else 2 * Twos(width - 1)
  }

  /** Exclusive or of the low `width` bits. */
  function XorBits(a: nat, b: nat, width: nat): (r: nat)
    ensures r < Twos(width)
  {
    if width == 0 then 0 else 2 * XorBits(a / 2, b / 2, width - 1) + if a % 2 != b % 2 then 1 else 0
  }

  /** Bit `k`, the least significant first. */
  predicate Bit(n: nat, k: nat) { if k == 0 then n % 2 == 1 else Bit(n / 2, k - 1) }

  lemma {:induction false} XorBitsDiffer(a: nat, b: nat, width: nat, k: nat)
    requires k < width
    ensures Bit(XorBits(a, b, width), k) <==> Bit(a, k) != Bit(b, k)
  {
    LowBit(if a % 2 != b % 2 then 1 else 0, XorBits(a / 2, b / 2, width - 1));
    if k > 0 {
      XorBitsDiffer(a / 2, b / 2, width - 1, k - 1);
    }
  }

  function Xor(a: byte, b: byte): byte {
    assert Twos(4) == 16 && Twos(8) == 256;
    XorBits(a, b, 8)
  }

  lemma {:induction false} XorBitsUndoes(a: nat, b: nat, width: nat)
    requires a < Twos(width)
    ensures XorBits(XorBits(a, b, width), b, width) == a
  {
    if width > 0 {
      XorBitsUndoes(a / 2, b / 2, width - 1);
      LowBit(if a % 2 != b % 2 then 1 else 0, XorBits(a / 2, b / 2, width - 1));
      LowBit(a % 2, a / 2);
    }
  }

  lemma LowBit(low: nat, rest: nat)
    requires low < 2
    ensures (2 * rest + low) % 2 == low && (2 * rest + low) / 2 == rest
  {
  }

  lemma XorUndoes(a: byte, b: byte)
    ensures Xor(Xor(a, b), b) == a
  {
    assert Twos(4) == 16 && Twos(8) == 256;
    XorBitsUndoes(a, b, 8);
  }
}
