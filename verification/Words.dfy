/**
 32-bit machine words and bytes as sequences of bits, most significant bit first.
 */
module Words {

  function Zeros(n: nat): seq<bool> {
    seq(n, i => false)
  }

  /** The word whose only bit is bit i, counted from the most significant one. */
  function Mask(i: nat): bv32 {
    if i == 0 then 0x8000_0000 else Mask(i - 1) >> 1
  }

  predicate Bit(w: bv32, i: nat)
    requires i < 32
  {
    w & Mask(i) != 0
  }

  function Bits(w: bv32): (s: seq<bool>)
    ensures |s| == 32
  {
    seq(32, i requires 0 <= i < 32 => Bit(w, i))
  }

  function ByteBits(b: bv8): (s: seq<bool>)
    ensures |s| == 8
  {
    Bits((b as bv32) << 24)[..8]
  }

  // ------------------------------------------------------------------ masks

  lemma {:induction false} MaskValue(i: nat)
    requires i < 32
    ensures Mask(i) == 0x8000_0000 >> i
  {
    if i > 0 {
      MaskValue(i - 1);
      ShiftStep(i - 1);
    }
  }

  lemma ShiftStep(i: nat)
    requires i < 31
    ensures (0x8000_0000 as bv32 >> i) >> 1 == 0x8000_0000 >> (i + 1)
  {
  }

  lemma MaskOneBit(i: nat)
    requires i < 32
    ensures Mask(i) & (Mask(i) - 1) == 0
  {
    MaskValue(i);
    ShiftedOneBit(i);
  }

  lemma ShiftedOneBit(i: nat)
    requires i < 32
    ensures (0x8000_0000 as bv32 >> i) & ((0x8000_0000 as bv32 >> i) - 1) == 0
  {
  }

  lemma MaskRoundTrip(i: nat)
    requires i < 31
    ensures Mask(i + 1) << 1 == Mask(i)
  {
    MaskValue(i);
    ShiftRoundTrip(i);
  }

  lemma ShiftRoundTrip(i: nat)
    requires i < 31
    ensures ((0x8000_0000 as bv32 >> i) >> 1) << 1 == 0x8000_0000 >> i
  {
  }

  lemma MaskOfShiftLeft(w: bv32, m: bv32)
    ensures (w << 1) & m == 0 <==> w & (m >> 1) == 0
  {
  }

  lemma MaskOfShiftRight(w: bv32, m: bv32)
    ensures (w >> 1) & m == 0 <==> w & (m << 1) == 0
  {
  }

  lemma MaskOfXor(a: bv32, b: bv32, m: bv32)
    requires m & (m - 1) == 0
    ensures (a ^ b) & m != 0 <==> (a & m != 0) != (b & m != 0)
  {
  }

  // ------------------------------------------------------------------ words and their bits

  lemma BitOfShiftLeft(w: bv32, i: nat)
    requires i < 31
    ensures Bit(w << 1, i) == Bit(w, i + 1)
  {
    MaskOfShiftLeft(w, Mask(i));
  }

  lemma LastBitOfShiftLeft(w: bv32)
    ensures !Bit(w << 1, 31)
  {
    MaskValue(31);
  }

  lemma BitOfShiftRight(w: bv32, i: nat)
    requires i < 31
    ensures Bit(w >> 1, i + 1) == Bit(w, i)
  {
    MaskRoundTrip(i);
    MaskOfShiftRight(w, Mask(i + 1));
  }

  lemma BitsOfShiftLeft(w: bv32)
    ensures Bits(w << 1) == Bits(w)[1..] + [false]
  {
    var s, r := Bits(w << 1), Bits(w)[1..] + [false];
    forall i | 0 <= i < 32 ensures s[i] == r[i] {
      if i < 31 {
        BitOfShiftLeft(w, i);
      } else {
        LastBitOfShiftLeft(w);
      }
    }
  }

  lemma BitsOfShiftRight(w: bv32)
    ensures Bits(w >> 1) == [false] + Bits(w)[..31]
  {
    var s, r := Bits(w >> 1), [false] + Bits(w)[..31];
    forall i | 0 <= i < 32 ensures s[i] == r[i] {
      if i > 0 {
        BitOfShiftRight(w, i - 1);
      }
    }
  }

  lemma BitsOfXor(a: bv32, b: bv32)
    ensures forall i | 0 <= i < 32 :: Bits(a ^ b)[i] == (Bits(a)[i] != Bits(b)[i])
  {
    forall i | 0 <= i < 32 ensures Bits(a ^ b)[i] == (Bits(a)[i] != Bits(b)[i]) {
      MaskOneBit(i);
      MaskOfXor(a, b, Mask(i));
    }
  }

  lemma BitsOfZero()
    ensures forall i | 0 <= i < 32 :: !Bits(0)[i]
  {
    forall i | 0 <= i < 32 ensures !Bits(0)[i] {
      assert 0 & Mask(i) == 0;
    }
  }

  lemma LastBit(w: bv32)
    ensures Bits(w)[31] <==> w & 1 != 0
  {
    MaskValue(31);
  }

  /** The bits from n on: what is left of the word once its first n bits are known to be 0. */
  function Below(n: nat): bv32
    requires n <= 32
  {
    0xFFFF_FFFF >> n
  }

  lemma BelowStep(n: nat)
    requires n < 32
    ensures Below(n) == Mask(n) | Below(n + 1)
  {
    MaskValue(n);
    ShiftedOnes(n);
  }

  lemma ShiftedOnes(n: nat)
    requires n < 32
    ensures 0xFFFF_FFFF as bv32 >> n == (0x8000_0000 >> n) | (0xFFFF_FFFF >> (n + 1))
  {
  }

  lemma MaskSplit(w: bv32, m: bv32, rest: bv32)
    requires w & !(m | rest) == 0 && w & m == 0
    ensures w & !rest == 0
  {
  }

  lemma {:induction false} ZeroPrefix(w: bv32, n: nat)
    requires n <= 32 && forall i | 0 <= i < n :: !Bits(w)[i]
    ensures w & !Below(n) == 0
  {
    if n > 0 {
      ZeroPrefix(w, n - 1);
      BelowStep(n - 1);
      assert !Bits(w)[n - 1];
      MaskSplit(w, Mask(n - 1), Below(n));
    }
  }

  lemma ZeroWord(w: bv32)
    requires w & !0 == 0
    ensures w == 0
  {
  }

  lemma XorZero(a: bv32, b: bv32)
    requires a ^ b == 0
    ensures a == b
  {
  }

  /** A word is determined by its bits. */
  lemma BitsInjective(a: bv32, b: bv32)
    requires Bits(a) == Bits(b)
    ensures a == b
  {
    BitsOfXor(a, b);
    var d := Bits(a ^ b);
    forall i | 0 <= i < 32 ensures !d[i] {
      assert Bits(a)[i] == Bits(b)[i];
    }
    ZeroPrefix(a ^ b, 32);
    assert Below(32) == 0;
    ZeroWord(a ^ b);
    XorZero(a, b);
  }
}
