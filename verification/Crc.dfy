/**
 The CRC unit as app_crc_calculate uses it: 32 bits, not reflected, fed with bytes, most significant
 bit first. The state machine works on words; the lemmas say what it computes on polynomials.
 */
module Crc {
  import opened Gf2
  import opened Words

  /** Values the unit is configured with: the CRC-32 generator without its leading term, and the start value. */
  const POLYNOMIAL: bv32 := 0x04C1_1DB7
  const INITIAL_VALUE: bv32 := 0xFFFF_FFFF

  function FeedBit(crc: bv32, b: bool, poly: bv32): bv32 {
    if Bit(crc, 0) != b then (crc << 1) ^ poly else crc << 1
  }

  function FeedBits(crc: bv32, bits: Poly, poly: bv32): bv32 {
    if bits == [] then crc
    else FeedBit(FeedBits(crc, bits[..|bits| - 1], poly), bits[|bits| - 1], poly)
  }

  /** The message polynomial of a byte string. */
  function MessageBits(bytes: seq<bv8>): (p: Poly)
    ensures |p| == 8 * |bytes|
  {
    if bytes == [] then [] else MessageBits(bytes[..|bytes| - 1]) + ByteBits(bytes[|bytes| - 1])
  }

  function FeedBytes(crc: bv32, bytes: seq<bv8>, poly: bv32): bv32 {
    FeedBits(crc, MessageBits(bytes), poly)
  }

  /** The generator polynomial that a configured word stands for. */
  function Generator(poly: bv32): Poly {
    [true] + Bits(poly)
  }

  // ------------------------------------------------------------------ the register as a polynomial

  /** The register after one bit, for a generator of any degree. */
  function Advance(r: Poly, b: bool, t: Poly): (s: Poly)
    requires |r| == |t| > 0
    ensures |s| == |t|
  {
    Add(r[1..] + [false], Scale(r[0] != b, t))
  }

  function Run(r: Poly, m: Poly, t: Poly): (s: Poly)
    requires |r| == |t| > 0
    ensures |s| == |t|
  {
    if m == [] then r else Advance(Run(r, m[..|m| - 1], t), m[|m| - 1], t)
  }

  lemma BitsOfSum(v: bv32, w: bv32)
    ensures Bits(v ^ w) == Add(Bits(v), Bits(w))
  {
    BitsOfXor(v, w);
  }

  lemma FeedBitIsAdvance(crc: bv32, b: bool, poly: bv32)
    ensures Bits(FeedBit(crc, b, poly)) == Advance(Bits(crc), b, Bits(poly))
  {
    var v := crc << 1;
    BitsOfShiftLeft(crc);
    var r := Bits(crc)[1..] + [false];
    if Bits(crc)[0] != b {
      BitsOfSum(v, poly);
    } else {
      assert Add(r, Zeros(32)) == r;
    }
  }

  lemma {:induction false} FeedBitsIsRun(crc: bv32, bits: Poly, poly: bv32)
    ensures Bits(FeedBits(crc, bits, poly)) == Run(Bits(crc), bits, Bits(poly))
  {
    if bits != [] {
      var n := |bits| - 1;
      FeedBitsIsRun(crc, bits[..n], poly);
      FeedBitIsAdvance(FeedBits(crc, bits[..n], poly), bits[n], poly);
    }
  }

  lemma RunSnoc(r: Poly, m: Poly, b: bool, t: Poly)
    requires |r| == |t| > 0
    ensures Run(r, m + [b], t) == Advance(Run(r, m, t), b, t)
  {
    assert (m + [b])[..|m|] == m;
  }

  lemma AdvanceLinear(r: Poly, x: bool, s: Poly, y: bool, t: Poly)
    requires |r| == |s| == |t| > 0
    ensures Advance(Add(r, s), x != y, t) == Add(Advance(r, x, t), Advance(s, y, t))
  {
  }

  lemma {:induction false} RunLinear(r: Poly, s: Poly, a: Poly, b: Poly, t: Poly)
    requires |r| == |s| == |t| > 0 && |a| == |b|
    ensures Run(Add(r, s), Add(a, b), t) == Add(Run(r, a, t), Run(s, b, t))
  {
    if a != [] {
      var a', x, b', y := a[..|a| - 1], a[|a| - 1], b[..|b| - 1], b[|b| - 1];
      RunLinear(r, s, a', b', t);
      SplitLast(a);
      SplitLast(b);
      AddSnoc(a', x, b', y);
      RunSnoc(Add(r, s), Add(a', b'), x != y, t);
      AdvanceLinear(Run(r, a', t), x, Run(s, b', t), y, t);
    }
  }

  lemma AdvanceSplit(r: Poly, b: bool, t: Poly)
    requires |r| == |t| > 0
    ensures Advance(r, b, t) == Add(ShiftIn(r, false, t), Scale(b, t))
  {
  }

  /** A single bit moved up by one place. */
  lemma LeadingBit(b: bool, d: nat)
    requires d > 0
    ensures [b] + Zeros(d) == ([b] + Zeros(d - 1)) + [false]
    ensures Zeros(0) + ([b] + Zeros(d - 1)) == [b] + Zeros(d - 1)
    ensures ([b] + Zeros(d - 1))[1..] + [false] == Zeros(d)
  {
  }

  lemma ShiftOutLeadingBit(b: bool, t: Poly)
    requires |t| > 0
    ensures ShiftIn([b] + Zeros(|t| - 1), false, t) == Scale(b, t)
  {
    LeadingBit(b, |t|);
    AddZeros(Scale(b, t));
  }

  /** x^d mod G is the lower part of G. */
  lemma RemOfPower(b: bool, t: Poly)
    requires |t| > 0
    ensures Rem([b] + Zeros(|t|), t) == Scale(b, t)
  {
    var d := |t|;
    var p := [b] + Zeros(d - 1);
    RemShort(p, t);
    LeadingBit(b, d);
    RemFromSnoc(Zeros(d), p, false, t);
    ShiftOutLeadingBit(b, t);
  }

  /** Taking in b and then d zeros, by linearity: what r contributes and what b contributes. */
  lemma RemFromWithBit(r: Poly, b: bool, t: Poly)
    requires |r| == |t| > 0
    ensures RemFrom(r, [b] + Zeros(|t|), t) == Add(ShiftIn(RemFrom(r, Zeros(|t|), t), false, t), Scale(b, t))
  {
    var d := |t|;
    AddZeros(r);
    AddZeros([b] + Zeros(d));
    RemFromLinear(r, Zeros(d), Zeros(d + 1), [b] + Zeros(d), t);
    RemOfPower(b, t);
    ZerosSnoc(d);
    RemFromSnoc(r, Zeros(d), false, t);
  }

  lemma RemFromExtended(r: Poly, b: bool, t: Poly)
    requires |r| == |t| > 0
    ensures RemFrom(ShiftIn(r, b, t), Zeros(|t|), t) == Advance(RemFrom(r, Zeros(|t|), t), b, t)
  {
    RemFromSnoc(r, [], b, t);
    assert [] + [b] == [b];
    RemFromConcat(r, [b], Zeros(|t|), t);
    RemFromWithBit(r, b, t);
    AdvanceSplit(RemFrom(r, Zeros(|t|), t), b, t);
  }

  /** Started from zero, the register holds the remainder of the message times x^d. */
  lemma {:induction false} RunIsRemainder(m: Poly, t: Poly)
    requires |t| > 0
    ensures Run(Zeros(|t|), m, t) == Rem(m + Zeros(|t|), t)
  {
    var z := Zeros(|t|);
    RemFromConcat(z, m, z, t);
    if m == [] {
      RemFromZeros(|t|, t);
    } else {
      var m', b := m[..|m| - 1], m[|m| - 1];
      RunIsRemainder(m', t);
      RemFromConcat(z, m', z, t);
      SplitLast(m);
      RemFromSnoc(z, m', b, t);
      RemFromExtended(Rem(m', t), b, t);
    }
  }

  lemma AddZeroIffEqual(a: Poly, b: Poly)
    requires |a| == |b|
    ensures Add(a, b) == Zeros(|a|) <==> a == b
  {
    if Add(a, b) == Zeros(|a|) {
      forall i | 0 <= i < |a| ensures a[i] == b[i] {
        assert !Add(a, b)[i];
      }
    }
  }

  /**
   Whatever the start value, and for every generator with constant term 1: two messages of equal
   length leave the same CRC exactly when the generator divides their difference.
   */
  lemma EqualCrcIffDivides(start: bv32, a: Poly, b: Poly, poly: bv32)
    requires |a| == |b| && Bits(poly)[31]
    ensures FeedBits(start, a, poly) == FeedBits(start, b, poly) <==> Divides(Generator(poly), Add(a, b))
  {
    var t, s := Bits(poly), Bits(start);
    FeedBitsIsRun(start, a, poly);
    FeedBitsIsRun(start, b, poly);
    RunLinear(s, s, a, b, t);
    AddZeroIffEqual(s, s);
    AddZeroIffEqual(Run(s, a, t), Run(s, b, t));
    RunIsRemainder(Add(a, b), t);
    RemTrailingZeros(Add(a, b), 32, t);
    RemainderDecidesDivisibility(Add(a, b), t);
    if Bits(FeedBits(start, a, poly)) == Bits(FeedBits(start, b, poly)) {
      BitsInjective(FeedBits(start, a, poly), FeedBits(start, b, poly));
    }
  }

  lemma PaddedNonzero(n: nat, w: Poly)
    ensures Zeros(n) + w == Zeros(n + |w|) <==> w == Zeros(|w|)
  {
    if Zeros(n) + w == Zeros(n + |w|) {
      assert w == (Zeros(n) + w)[n..];
    }
  }

  /** A nonzero difference that fits in d consecutive coefficients is never divisible. */
  lemma BurstNotDivisible(i: nat, w: Poly, j: nat, t: Poly)
    requires |t| > 0 && t[|t| - 1] && |w| <= |t| && w != Zeros(|w|)
    ensures !Divides([true] + t, Zeros(i) + w + Zeros(j))
  {
    RemLeadingZeros(i, w, t);
    RemShort(w, t);
    PaddedNonzero(|t| - |w|, w);
    RemTrailingZeros(Zeros(i) + w, j, t);
    RemainderDecidesDivisibility(Zeros(i) + w + Zeros(j), t);
  }

  /** The generator itself, d + 1 coefficients wide, is divisible wherever it stands. */
  lemma GeneratorDivisible(i: nat, j: nat, t: Poly)
    requires |t| > 0 && t[|t| - 1]
    ensures Divides([true] + t, Zeros(i) + ([true] + t) + Zeros(j))
  {
    RemLeadingZeros(i, [true] + t, t);
    RemOfScaledGenerator(true, t);
    RemTrailingZeros(Zeros(i) + ([true] + t), j, t);
    RemainderDecidesDivisibility(Zeros(i) + ([true] + t) + Zeros(j), t);
  }

  // ------------------------------------------------------------------ bytes

  lemma ByteBitsOfXor(a: bv8, b: bv8)
    ensures ByteBits(a ^ b) == Add(ByteBits(a), ByteBits(b))
  {
    var wa, wb := (a as bv32) << 24, (b as bv32) << 24;
    assert ((a ^ b) as bv32) << 24 == wa ^ wb;
    BitsOfXor(wa, wb);
  }

  lemma ByteBitsInjective(a: bv8, b: bv8)
    requires ByteBits(a) == ByteBits(b)
    ensures a == b
  {
    var d := a ^ b;
    ByteBitsOfXor(a, b);
    AddZeroIffEqual(ByteBits(a), ByteBits(b));
    var w := (d as bv32) << 24;
    forall i | 0 <= i < 8 ensures !Bits(w)[i] {
      assert Bits(w)[i] == ByteBits(d)[i];
    }
    ZeroPrefix(w, 8);
    assert Below(8) == 0x00FF_FFFF;
    TopByteZero(d);
    assert a == b by { XorZeroByte(a, b); }
  }

  lemma TopByteZero(d: bv8)
    requires ((d as bv32) << 24) & !0x00FF_FFFF == 0
    ensures d == 0
  {
  }

  lemma XorZeroByte(a: bv8, b: bv8)
    requires a ^ b == 0
    ensures a == b
  {
  }

  lemma {:induction false} MessageBitsInjective(a: seq<bv8>, b: seq<bv8>)
    requires |a| == |b| && MessageBits(a) == MessageBits(b)
    ensures a == b
  {
    if a != [] {
      var n := |a| - 1;
      assert MessageBits(a[..n]) == MessageBits(a)[..8 * n] == MessageBits(b)[..8 * n] == MessageBits(b[..n]);
      MessageBitsInjective(a[..n], b[..n]);
      assert ByteBits(a[n]) == MessageBits(a)[8 * n..] == MessageBits(b)[8 * n..] == ByteBits(b[n]);
      ByteBitsInjective(a[n], b[n]);
    }
  }
}
