/** The check value of the CRC: what it gives for the nine digits "123456789". */
module CrcCheck {
  import opened Basics
  import opened Words
  import opened Gf2
  import opened Crc
  import opened DataCompare

  /** The register after four bits. */
  function FeedFour(crc: bv32, s: Poly): bv32
    requires |s| == 4
  {
    FeedBit(FeedBit(FeedBit(FeedBit(crc, s[0], POLYNOMIAL), s[1], POLYNOMIAL), s[2], POLYNOMIAL), s[3], POLYNOMIAL)
  }

  function FeedEight(crc: bv32, s: Poly): bv32
    requires |s| == 8
  {
    FeedFour(FeedFour(crc, s[..4]), s[4..])
  }

  lemma FeedBitsSnoc(crc: bv32, bits: Poly, b: bool)
    ensures FeedBits(crc, bits + [b], POLYNOMIAL) == FeedBit(FeedBits(crc, bits, POLYNOMIAL), b, POLYNOMIAL)
  {
    assert (bits + [b])[..|bits|] == bits;
  }

  lemma SplitsLast(a: Poly, b: Poly)
    requires b != []
    ensures a + b == (a + b[..|b| - 1]) + [b[|b| - 1]]
    ensures b == b[..|b| - 1] + [b[|b| - 1]]
  {
  }

  lemma {:induction false} FeedBitsConcat(crc: bv32, a: Poly, b: Poly)
    ensures FeedBits(crc, a + b, POLYNOMIAL) == FeedBits(FeedBits(crc, a, POLYNOMIAL), b, POLYNOMIAL)
    decreases |b|
  {
    if b == [] {
      assert a + b == a;
    } else {
      var front, last := b[..|b| - 1], b[|b| - 1];
      SplitsLast(a, b);
      FeedBitsConcat(crc, a, front);
      FeedBitsSnoc(crc, a + front, last);
      FeedBitsSnoc(FeedBits(crc, a, POLYNOMIAL), front, last);
    }
  }

  lemma FeedNext(crc: bv32, s: Poly, k: nat)
    requires k < |s|
    ensures FeedBits(crc, s[..k + 1], POLYNOMIAL) == FeedBit(FeedBits(crc, s[..k], POLYNOMIAL), s[k], POLYNOMIAL)
  {
    FeedBitsSnoc(crc, s[..k], s[k]);
    assert s[..k + 1] == s[..k] + [s[k]];
  }

  lemma FeedBitsFour(crc: bv32, s: Poly)
    requires |s| == 4
    ensures FeedBits(crc, s, POLYNOMIAL) == FeedFour(crc, s)
  {
    FeedNext(crc, s, 0);
    FeedNext(crc, s, 1);
    FeedNext(crc, s, 2);
    FeedNext(crc, s, 3);
    assert s[..4] == s && FeedBits(crc, s[..0], POLYNOMIAL) == crc;
  }

  lemma FeedBitsEight(crc: bv32, s: Poly)
    requires |s| == 8
    ensures FeedBits(crc, s, POLYNOMIAL) == FeedEight(crc, s)
  {
    assert s == s[..4] + s[4..];
    FeedBitsConcat(crc, s[..4], s[4..]);
    FeedBitsFour(crc, s[..4]);
    FeedBitsFour(FeedFour(crc, s[..4]), s[4..]);
  }

  /** One more byte, with its bits written out. */
  lemma FeedOneMore(bytes: seq<bv8>, n: nat, s: Poly)
    requires n < |bytes| && ByteBits(bytes[n]) == s
    ensures FeedBytes(INITIAL_VALUE, bytes[..n + 1], POLYNOMIAL)
         == FeedEight(FeedBytes(INITIAL_VALUE, bytes[..n], POLYNOMIAL), s)
  {
    assert bytes[..n + 1][..n] == bytes[..n];
    assert MessageBits(bytes[..n + 1]) == MessageBits(bytes[..n]) + s;
    FeedBitsConcat(INITIAL_VALUE, MessageBits(bytes[..n]), s);
    FeedBitsEight(FeedBytes(INITIAL_VALUE, bytes[..n], POLYNOMIAL), s);
  }

  lemma EightMasks()
    ensures Mask(0) == 0x8000_0000 && Mask(1) == 0x4000_0000 && Mask(2) == 0x2000_0000 && Mask(3) == 0x1000_0000
    ensures Mask(4) == 0x0800_0000 && Mask(5) == 0x0400_0000 && Mask(6) == 0x0200_0000 && Mask(7) == 0x0100_0000
  {
  }

  lemma TopBit(w: bv32, i: nat, m: bv32)
    requires i < 8 && m == Mask(i)
    ensures Bits(w)[i] == (w & m != 0)
  {
  }

  lemma TopBits(w: bv32, s: Poly)
    requires |s| == 8
    requires s[0] == (w & 0x8000_0000 != 0) && s[1] == (w & 0x4000_0000 != 0) && s[2] == (w & 0x2000_0000 != 0)
    requires s[3] == (w & 0x1000_0000 != 0) && s[4] == (w & 0x0800_0000 != 0) && s[5] == (w & 0x0400_0000 != 0)
    requires s[6] == (w & 0x0200_0000 != 0) && s[7] == (w & 0x0100_0000 != 0)
    ensures Bits(w)[..8] == s
  {
    EightMasks();
    TopBit(w, 0, 0x8000_0000);
    TopBit(w, 1, 0x4000_0000);
    TopBit(w, 2, 0x2000_0000);
    TopBit(w, 3, 0x1000_0000);
    TopBit(w, 4, 0x0800_0000);
    TopBit(w, 5, 0x0400_0000);
    TopBit(w, 6, 0x0200_0000);
    TopBit(w, 7, 0x0100_0000);
  }

  /** The bits of a byte stand at the top of the word that the byte is shifted up to. */
  lemma TopOfByte(b: bv8, w: bv32)
    requires w == (b as bv32) << 24
    ensures (b & 0x80 != 0) == (w & 0x8000_0000 != 0) && (b & 0x40 != 0) == (w & 0x4000_0000 != 0)
    ensures (b & 0x20 != 0) == (w & 0x2000_0000 != 0) && (b & 0x10 != 0) == (w & 0x1000_0000 != 0)
    ensures (b & 0x08 != 0) == (w & 0x0800_0000 != 0) && (b & 0x04 != 0) == (w & 0x0400_0000 != 0)
    ensures (b & 0x02 != 0) == (w & 0x0200_0000 != 0) && (b & 0x01 != 0) == (w & 0x0100_0000 != 0)
  {
  }

  lemma BitsOfByte(b: bv8, s: Poly)
    requires |s| == 8
    requires s[0] == (b & 0x80 != 0) && s[1] == (b & 0x40 != 0) && s[2] == (b & 0x20 != 0) && s[3] == (b & 0x10 != 0)
    requires s[4] == (b & 0x08 != 0) && s[5] == (b & 0x04 != 0) && s[6] == (b & 0x02 != 0) && s[7] == (b & 0x01 != 0)
    ensures ByteBits(b) == s
  {
    var w := (b as bv32) << 24;
    TopOfByte(b, w);
    TopBits(w, s);
  }

  lemma NineFeeds()
    ensures FeedEight(0xFFFF_FFFF, [false, false, true, true, false, false, false, true]) == 0x9EFB_CF93
    ensures FeedEight(0x9EFB_CF93, [false, false, true, true, false, false, true, false]) == 0x3FEC_5E6A
    ensures FeedEight(0x3FEC_5E6A, [false, false, true, true, false, false, true, true]) == 0xD952_F164
    ensures FeedEight(0xD952_F164, [false, false, true, true, false, true, false, false]) == 0xA695_C4AA
    ensures FeedEight(0xA695_C4AA, [false, false, true, true, false, true, false, true]) == 0xBD9A_B747
    ensures FeedEight(0xBD9A_B747, [false, false, true, true, false, true, true, false]) == 0xD8F0_6C8F
    ensures FeedEight(0xD8F0_6C8F, [false, false, true, true, false, true, true, true]) == 0x0D8A_14C4
    ensures FeedEight(0x0D8A_14C4, [false, false, true, true, true, false, false, false]) == 0x49E3_C2FB
    ensures FeedEight(0x49E3_C2FB, [false, false, true, true, true, false, false, true]) == 0x0376_E6E7
  {
  }

  lemma FirstThree(digits: seq<bv8>)
    requires |digits| == 9 && digits[0] == 0x31 && digits[1] == 0x32 && digits[2] == 0x33
    requires FeedBytes(INITIAL_VALUE, digits[..0], POLYNOMIAL) == 0xFFFF_FFFF
    ensures FeedBytes(INITIAL_VALUE, digits[..3], POLYNOMIAL) == 0xD952_F164
  {
    NineFeeds();
    BitsOfByte(0x31, [false, false, true, true, false, false, false, true]);
    FeedOneMore(digits, 0, [false, false, true, true, false, false, false, true]);
    BitsOfByte(0x32, [false, false, true, true, false, false, true, false]);
    FeedOneMore(digits, 1, [false, false, true, true, false, false, true, false]);
    BitsOfByte(0x33, [false, false, true, true, false, false, true, true]);
    FeedOneMore(digits, 2, [false, false, true, true, false, false, true, true]);
  }

  lemma SecondThree(digits: seq<bv8>)
    requires |digits| == 9 && digits[3] == 0x34 && digits[4] == 0x35 && digits[5] == 0x36
    requires FeedBytes(INITIAL_VALUE, digits[..3], POLYNOMIAL) == 0xD952_F164
    ensures FeedBytes(INITIAL_VALUE, digits[..6], POLYNOMIAL) == 0xD8F0_6C8F
  {
    NineFeeds();
    BitsOfByte(0x34, [false, false, true, true, false, true, false, false]);
    FeedOneMore(digits, 3, [false, false, true, true, false, true, false, false]);
    BitsOfByte(0x35, [false, false, true, true, false, true, false, true]);
    FeedOneMore(digits, 4, [false, false, true, true, false, true, false, true]);
    BitsOfByte(0x36, [false, false, true, true, false, true, true, false]);
    FeedOneMore(digits, 5, [false, false, true, true, false, true, true, false]);
  }

  lemma ThirdThree(digits: seq<bv8>)
    requires |digits| == 9 && digits[6] == 0x37 && digits[7] == 0x38 && digits[8] == 0x39
    requires FeedBytes(INITIAL_VALUE, digits[..6], POLYNOMIAL) == 0xD8F0_6C8F
    ensures FeedBytes(INITIAL_VALUE, digits[..9], POLYNOMIAL) == 0x0376_E6E7
  {
    NineFeeds();
    BitsOfByte(0x37, [false, false, true, true, false, true, true, true]);
    FeedOneMore(digits, 6, [false, false, true, true, false, true, true, true]);
    BitsOfByte(0x38, [false, false, true, true, true, false, false, false]);
    FeedOneMore(digits, 7, [false, false, true, true, true, false, false, false]);
    BitsOfByte(0x39, [false, false, true, true, true, false, false, true]);
    FeedOneMore(digits, 8, [false, false, true, true, true, false, false, true]);
  }

  /** The CRC of "123456789" is 0x0376E6E7, the check value of the unreflected CRC-32 without a final inversion. */
  lemma CheckValue(digits: seq<bv8>)
    requires digits == [0x31, 0x32, 0x33, 0x34, 0x35, 0x36, 0x37, 0x38, 0x39]
    ensures CrcCalculate(Some(digits), 9) == 0x0376_E6E7
  {
    assert digits[..0] == [] && digits[..9] == digits;
    FirstThree(digits);
    SecondThree(digits);
    ThirdThree(digits);
  }
}
