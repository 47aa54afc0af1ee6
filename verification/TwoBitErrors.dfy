/**
 Two-bit errors. Every power of x modulo the generator that is a multiple of the 32nd, up to the 2048th, has more
 than one bit; so no power up to there is 1, and two wrong bits less than 2048 places apart are always found.
 */
module TwoBitErrors {
  import opened Basics
  import opened Words
  import opened Gf2
  import opened Crc
  import opened DataCompare

  /** Multiplication by x modulo the generator. */
  function Times(w: bv32): bv32 {
    if w & 0x8000_0000 != 0 then (w << 1) ^ 0x04C1_1DB7 else w << 1
  }

  function Times4(w: bv32): bv32 {
    Times(Times(Times(Times(w))))
  }

  function Times32(w: bv32): bv32 {
    Times4(Times4(Times4(Times4(Times4(Times4(Times4(Times4(w))))))))
  }

  /** More than one bit is set, or none. */
  predicate NotOneBit(w: bv32) {
    w & (w - 1) != 0
  }

  /** n times 32 multiplications by x lead from w to end, always from words of several bits. */
  predicate Leads(w: bv32, n: nat, end: bv32)
    decreases n
  {
    if n == 0 then w == end else NotOneBit(w) && Leads(Times32(w), n - 1, end)
  }

  // ------------------------------------------------------------------ from the 32nd power to the 2080th

  lemma Steps4()
    ensures NotOneBit(0x07A3_7083) && Times32(0x07A3_7083) == 0xDC53_DFCC
    ensures NotOneBit(0xDC53_DFCC) && Times32(0xDC53_DFCC) == 0x6AAC_51CF
    ensures NotOneBit(0x6AAC_51CF) && Times32(0x6AAC_51CF) == 0x4625_7894
    ensures NotOneBit(0x4625_7894) && Times32(0x4625_7894) == 0xE1B6_B59B
    ensures NotOneBit(0xE1B6_B59B) && Times32(0xE1B6_B59B) == 0xA47E_E42B
    ensures NotOneBit(0xA47E_E42B) && Times32(0xA47E_E42B) == 0x7F7D_1F49
    ensures NotOneBit(0x7F7D_1F49) && Times32(0x7F7D_1F49) == 0xCAD4_B8D6
    ensures NotOneBit(0xCAD4_B8D6) && Times32(0xCAD4_B8D6) == 0x81BB_3513
    ensures NotOneBit(0x81BB_3513) && Times32(0x81BB_3513) == 0x5A73_9DE2
    ensures NotOneBit(0x5A73_9DE2) && Times32(0x5A73_9DE2) == 0x72A9_7C47
    ensures NotOneBit(0x72A9_7C47) && Times32(0x72A9_7C47) == 0x3CB3_4BF1
    ensures NotOneBit(0x3CB3_4BF1) && Times32(0x3CB3_4BF1) == 0x64DE_C1B7
    ensures NotOneBit(0x64DE_C1B7) && Times32(0x64DE_C1B7) == 0x7844_17C8
    ensures NotOneBit(0x7844_17C8) && Times32(0x7844_17C8) == 0x1851_6899
    ensures NotOneBit(0x1851_6899) && Times32(0x1851_6899) == 0x88FE_2237
    ensures NotOneBit(0x88FE_2237) && Times32(0x88FE_2237) == 0xA3DC_8551
  {
  }

  lemma LeadsFrom4()
    ensures Leads(0x07A3_7083, 16, 0xA3DC_8551)
  {
    Steps4();
    assert Leads(0xA3DC_8551, 0, 0xA3DC_8551);
    assert Leads(0x88FE_2237, 1, 0xA3DC_8551);
    assert Leads(0x1851_6899, 2, 0xA3DC_8551);
    assert Leads(0x7844_17C8, 3, 0xA3DC_8551);
    assert Leads(0x64DE_C1B7, 4, 0xA3DC_8551);
    assert Leads(0x3CB3_4BF1, 5, 0xA3DC_8551);
    assert Leads(0x72A9_7C47, 6, 0xA3DC_8551);
    assert Leads(0x5A73_9DE2, 7, 0xA3DC_8551);
    assert Leads(0x81BB_3513, 8, 0xA3DC_8551);
    assert Leads(0xCAD4_B8D6, 9, 0xA3DC_8551);
    assert Leads(0x7F7D_1F49, 10, 0xA3DC_8551);
    assert Leads(0xA47E_E42B, 11, 0xA3DC_8551);
    assert Leads(0xE1B6_B59B, 12, 0xA3DC_8551);
    assert Leads(0x4625_7894, 13, 0xA3DC_8551);
    assert Leads(0x6AAC_51CF, 14, 0xA3DC_8551);
    assert Leads(0xDC53_DFCC, 15, 0xA3DC_8551);
    assert Leads(0x07A3_7083, 16, 0xA3DC_8551);
  }

  lemma Steps3()
    ensures NotOneBit(0x9D9E_E22F) && Times32(0x9D9E_E22F) == 0x10BD_4D7C
    ensures NotOneBit(0x10BD_4D7C) && Times32(0x10BD_4D7C) == 0xBC29_05F8
    ensures NotOneBit(0xBC29_05F8) && Times32(0xBC29_05F8) == 0x3281_2ADB
    ensures NotOneBit(0x3281_2ADB) && Times32(0x3281_2ADB) == 0x7CA0_C77F
    ensures NotOneBit(0x7CA0_C77F) && Times32(0x7CA0_C77F) == 0xB24C_969C
    ensures NotOneBit(0xB24C_969C) && Times32(0xB24C_969C) == 0x1F97_D5A5
    ensures NotOneBit(0x1F97_D5A5) && Times32(0x1F97_D5A5) == 0x44E7_7570
    ensures NotOneBit(0x44E7_7570) && Times32(0x44E7_7570) == 0x0FB8_558E
    ensures NotOneBit(0x0FB8_558E) && Times32(0x0FB8_558E) == 0xB2CC_4E87
    ensures NotOneBit(0xB2CC_4E87) && Times32(0xB2CC_4E87) == 0xCD48_EAA1
    ensures NotOneBit(0xCD48_EAA1) && Times32(0xCD48_EAA1) == 0x6A54_B21E
    ensures NotOneBit(0x6A54_B21E) && Times32(0x6A54_B21E) == 0x70DA_AD03
    ensures NotOneBit(0x70DA_AD03) && Times32(0x70DA_AD03) == 0xF474_0741
    ensures NotOneBit(0xF474_0741) && Times32(0xF474_0741) == 0x46A3_52E9
    ensures NotOneBit(0x46A3_52E9) && Times32(0x46A3_52E9) == 0xD253_6D46
    ensures NotOneBit(0xD253_6D46) && Times32(0xD253_6D46) == 0x07A3_7083
  {
  }

  lemma LeadsFrom3()
    ensures Leads(0x9D9E_E22F, 32, 0xA3DC_8551)
  {
    Steps3();
    LeadsFrom4();
    assert Leads(0xD253_6D46, 17, 0xA3DC_8551);
    assert Leads(0x46A3_52E9, 18, 0xA3DC_8551);
    assert Leads(0xF474_0741, 19, 0xA3DC_8551);
    assert Leads(0x70DA_AD03, 20, 0xA3DC_8551);
    assert Leads(0x6A54_B21E, 21, 0xA3DC_8551);
    assert Leads(0xCD48_EAA1, 22, 0xA3DC_8551);
    assert Leads(0xB2CC_4E87, 23, 0xA3DC_8551);
    assert Leads(0x0FB8_558E, 24, 0xA3DC_8551);
    assert Leads(0x44E7_7570, 25, 0xA3DC_8551);
    assert Leads(0x1F97_D5A5, 26, 0xA3DC_8551);
    assert Leads(0xB24C_969C, 27, 0xA3DC_8551);
    assert Leads(0x7CA0_C77F, 28, 0xA3DC_8551);
    assert Leads(0x3281_2ADB, 29, 0xA3DC_8551);
    assert Leads(0xBC29_05F8, 30, 0xA3DC_8551);
    assert Leads(0x10BD_4D7C, 31, 0xA3DC_8551);
    assert Leads(0x9D9E_E22F, 32, 0xA3DC_8551);
  }

  lemma Steps2()
    ensures NotOneBit(0x57A8_4455) && Times32(0x57A8_4455) == 0x8833_794C
    ensures NotOneBit(0x8833_794C) && Times32(0x8833_794C) == 0x5395_A0EA
    ensures NotOneBit(0x5395_A0EA) && Times32(0x5395_A0EA) == 0xF91A_84E2
    ensures NotOneBit(0xF91A_84E2) && Times32(0xF91A_84E2) == 0x54F2_D5C7
    ensures NotOneBit(0x54F2_D5C7) && Times32(0x54F2_D5C7) == 0xE2CA_9D03
    ensures NotOneBit(0xE2CA_9D03) && Times32(0xE2CA_9D03) == 0x34E4_5A63
    ensures NotOneBit(0x34E4_5A63) && Times32(0x34E4_5A63) == 0x1D49_ADA7
    ensures NotOneBit(0x1D49_ADA7) && Times32(0x1D49_ADA7) == 0x8762_C1F6
    ensures NotOneBit(0x8762_C1F6) && Times32(0x8762_C1F6) == 0x7606_EEEB
    ensures NotOneBit(0x7606_EEEB) && Times32(0x7606_EEEB) == 0x6AC7_E7D7
    ensures NotOneBit(0x6AC7_E7D7) && Times32(0x6AC7_E7D7) == 0x3A06_A4C6
    ensures NotOneBit(0x3A06_A4C6) && Times32(0x3A06_A4C6) == 0xFCD9_22AF
    ensures NotOneBit(0xFCD9_22AF) && Times32(0xFCD9_22AF) == 0x2ECC_3300
    ensures NotOneBit(0x2ECC_3300) && Times32(0x2ECC_3300) == 0x022F_FCA5
    ensures NotOneBit(0x022F_FCA5) && Times32(0x022F_FCA5) == 0x567F_DDEB
    ensures NotOneBit(0x567F_DDEB) && Times32(0x567F_DDEB) == 0x9D9E_E22F
  {
  }

  lemma LeadsFrom2()
    ensures Leads(0x57A8_4455, 48, 0xA3DC_8551)
  {
    Steps2();
    LeadsFrom3();
    assert Leads(0x567F_DDEB, 33, 0xA3DC_8551);
    assert Leads(0x022F_FCA5, 34, 0xA3DC_8551);
    assert Leads(0x2ECC_3300, 35, 0xA3DC_8551);
    assert Leads(0xFCD9_22AF, 36, 0xA3DC_8551);
    assert Leads(0x3A06_A4C6, 37, 0xA3DC_8551);
    assert Leads(0x6AC7_E7D7, 38, 0xA3DC_8551);
    assert Leads(0x7606_EEEB, 39, 0xA3DC_8551);
    assert Leads(0x8762_C1F6, 40, 0xA3DC_8551);
    assert Leads(0x1D49_ADA7, 41, 0xA3DC_8551);
    assert Leads(0x34E4_5A63, 42, 0xA3DC_8551);
    assert Leads(0xE2CA_9D03, 43, 0xA3DC_8551);
    assert Leads(0x54F2_D5C7, 44, 0xA3DC_8551);
    assert Leads(0xF91A_84E2, 45, 0xA3DC_8551);
    assert Leads(0x5395_A0EA, 46, 0xA3DC_8551);
    assert Leads(0x8833_794C, 47, 0xA3DC_8551);
    assert Leads(0x57A8_4455, 48, 0xA3DC_8551);
  }

  lemma Steps1()
    ensures NotOneBit(0x04C1_1DB7) && Times32(0x04C1_1DB7) == 0x490D_678D
    ensures NotOneBit(0x490D_678D) && Times32(0x490D_678D) == 0xF200_AA66
    ensures NotOneBit(0xF200_AA66) && Times32(0xF200_AA66) == 0xE8A4_5605
    ensures NotOneBit(0xE8A4_5605) && Times32(0xE8A4_5605) == 0x17D3_315D
    ensures NotOneBit(0x17D3_315D) && Times32(0x17D3_315D) == 0xC5B9_CD4C
    ensures NotOneBit(0xC5B9_CD4C) && Times32(0xC5B9_CD4C) == 0xCD8C_54B5
    ensures NotOneBit(0xCD8C_54B5) && Times32(0xCD8C_54B5) == 0x75BE_46B7
    ensures NotOneBit(0x75BE_46B7) && Times32(0x75BE_46B7) == 0xAB40_B71E
    ensures NotOneBit(0xAB40_B71E) && Times32(0xAB40_B71E) == 0x5697_00E5
    ensures NotOneBit(0x5697_00E5) && Times32(0x5697_00E5) == 0xC053_585D
    ensures NotOneBit(0xC053_585D) && Times32(0xC053_585D) == 0x8C38_28A8
    ensures NotOneBit(0x8C38_28A8) && Times32(0x8C38_28A8) == 0x766F_1B78
    ensures NotOneBit(0x766F_1B78) && Times32(0x766F_1B78) == 0x64BF_7A9B
    ensures NotOneBit(0x64BF_7A9B) && Times32(0x64BF_7A9B) == 0xD350_4EC7
    ensures NotOneBit(0xD350_4EC7) && Times32(0xD350_4EC7) == 0xE622_8B11
    ensures NotOneBit(0xE622_8B11) && Times32(0xE622_8B11) == 0x57A8_4455
  {
  }

  lemma LeadsFrom1()
    ensures Leads(0x04C1_1DB7, 64, 0xA3DC_8551)
  {
    Steps1();
    LeadsFrom2();
    assert Leads(0xE622_8B11, 49, 0xA3DC_8551);
    assert Leads(0xD350_4EC7, 50, 0xA3DC_8551);
    assert Leads(0x64BF_7A9B, 51, 0xA3DC_8551);
    assert Leads(0x766F_1B78, 52, 0xA3DC_8551);
    assert Leads(0x8C38_28A8, 53, 0xA3DC_8551);
    assert Leads(0xC053_585D, 54, 0xA3DC_8551);
    assert Leads(0x5697_00E5, 55, 0xA3DC_8551);
    assert Leads(0xAB40_B71E, 56, 0xA3DC_8551);
    assert Leads(0x75BE_46B7, 57, 0xA3DC_8551);
    assert Leads(0xCD8C_54B5, 58, 0xA3DC_8551);
    assert Leads(0xC5B9_CD4C, 59, 0xA3DC_8551);
    assert Leads(0x17D3_315D, 60, 0xA3DC_8551);
    assert Leads(0xE8A4_5605, 61, 0xA3DC_8551);
    assert Leads(0xF200_AA66, 62, 0xA3DC_8551);
    assert Leads(0x490D_678D, 63, 0xA3DC_8551);
    assert Leads(0x04C1_1DB7, 64, 0xA3DC_8551);
  }

  // ------------------------------------------------------------------ powers of x

  /** x^k modulo the generator. */
  function Power(k: nat): bv32 {
    if k == 0 then 1 else Times(Power(k - 1))
  }

  lemma FourMore(k: nat)
    ensures Power(k + 4) == Times4(Power(k))
  {
    assert Power(k + 1) == Times(Power(k));
    assert Power(k + 2) == Times(Power(k + 1));
    assert Power(k + 3) == Times(Power(k + 2));
  }

  lemma ThirtyTwoMore(k: nat)
    ensures Power(k + 32) == Times32(Power(k))
  {
    FourMore(k);
    FourMore(k + 4);
    FourMore(k + 8);
    FourMore(k + 12);
    FourMore(k + 16);
    FourMore(k + 20);
    FourMore(k + 24);
    FourMore(k + 28);
  }

  lemma {:induction false} PowersLead(k: nat, n: nat, end: bv32, m: nat)
    requires Leads(Power(k), n, end) && m < n
    ensures NotOneBit(Power(k + 32 * m))
    decreases m
  {
    if m > 0 {
      ThirtyTwoMore(k);
      PowersLead(k + 32, n - 1, end, m - 1);
    }
  }

  /** Below the degree a power is one bit. */
  lemma {:induction false} SmallPower(k: nat)
    requires k < 32
    ensures Power(k) == 1 << k && !NotOneBit(Power(k))
  {
    if k > 0 {
      SmallPower(k - 1);
      TimesShifted(k);
    }
    ShiftedOne(k);
  }

  lemma ShiftedOne(k: nat)
    requires k < 32
    ensures (1 as bv32 << k) & ((1 as bv32 << k) - 1) == 0
  {
  }

  lemma TimesShifted(k: nat)
    requires 0 < k < 32
    ensures Times(1 << (k - 1)) == 1 << k
  {
  }

  /** If the powers come back to 1, they repeat. */
  lemma {:induction false} Repeats(d: nat, j: nat)
    requires Power(d) == 1
    ensures Power(d + j) == Power(j)
    decreases j
  {
    if j > 0 {
      Repeats(d, j - 1);
    }
  }

  lemma FarPower(m: nat)
    requires 1 <= m <= 64
    ensures NotOneBit(Power(32 * m))
  {
    var k, n, end := FirstLeads();
    assert k + 32 * (m - 1) == 32 * m;
    PowersLead(k, n, end, m - 1);
  }

  lemma FirstLeads() returns (k: nat, n: nat, end: bv32)
    ensures k == 32 && 64 <= n && Leads(Power(k), n, end)
  {
    k, n, end := 32, 64, 0xA3DC_8551;
    FirstPower(k);
    LeadsFrom1();
  }

  lemma NextMultipleOf32(d: nat) returns (m: nat, b: nat)
    requires 1 <= d <= 2048
    ensures 32 * m == d + b && b < 32 && 1 <= m <= 64
  {
    m := (d + 31) / 32;
    b := 32 * m - d;
  }

  /** They do not within 2048 steps. */
  lemma NoEarlyReturn(d: nat)
    requires 1 <= d <= 2048
    ensures Power(d) != 1
  {
    if Power(d) == 1 {
      var m, b := NextMultipleOf32(d);
      Repeats(d, b);
      SmallPower(b);
      FarPower(m);
      assert false;
    }
  }

  lemma FirstPower(k: nat)
    requires k == 32
    ensures Power(k) == 0x04C1_1DB7
  {
    SmallPower(k - 1);
    assert Times(0x8000_0000) == 0x04C1_1DB7;
    assert 1 as bv32 << (k - 1) == 0x8000_0000;
  }

  // ------------------------------------------------------------------ remainders

  lemma TimesIsFeed(w: bv32)
    ensures FeedBit(w, false, POLYNOMIAL) == Times(w)
  {
    assert Mask(0) == 0x8000_0000;
  }

  lemma BitsOfOne()
    ensures Bits(1) == Zeros(31) + [true]
  {
    forall i | 0 <= i < 32
      ensures Bits(1)[i] == (i == 31)
    {
      MaskValue(i);
      OneMasked(i);
    }
  }

  lemma OneMasked(i: nat)
    requires i < 32
    ensures 1 & (0x8000_0000 as bv32 >> i) != 0 <==> i == 31
  {
  }

  /** The register that starts from 1 holds the remainders of the powers of x. */
  lemma {:induction false} PowerIsRemainder(k: nat)
    ensures Bits(Power(k)) == Rem([true] + Zeros(k), Bits(POLYNOMIAL))
  {
    var t := Bits(POLYNOMIAL);
    if k == 0 {
      BitsOfOne();
      assert [true] + Zeros(0) == [true];
      RemShort([true], t);
    } else {
      PowerIsRemainder(k - 1);
      TimesIsFeed(Power(k - 1));
      FeedBitIsAdvance(Power(k - 1), false, POLYNOMIAL);
      NextPower(k - 1);
      RemFromSnoc(Zeros(32), [true] + Zeros(k - 1), false, t);
      AdvanceIsShift(Bits(Power(k - 1)), t);
    }
  }

  lemma NextPower(k: nat)
    ensures [true] + Zeros(k + 1) == ([true] + Zeros(k)) + [false]
  {
  }

  lemma AdvanceIsShift(r: Poly, t: Poly)
    requires |r| == |t| > 0
    ensures Advance(r, false, t) == ShiftIn(r, false, t)
  {
  }

  lemma LastCoefficient(r: Poly, t: Poly)
    requires |r| == |t| == 32 && ShiftIn(r, true, t) == Zeros(32)
    ensures ShiftIn(r, false, t) == Zeros(31) + [true]
  {
    var s, z := ShiftIn(r, false, t), ShiftIn(r, true, t);
    forall i | 0 <= i < 32
      ensures s[i] == (i == 31)
    {
      assert !z[i];
    }
  }

  /** x^d + 1 is not divisible by the generator. */
  lemma TwoTermsRemain(d: nat)
    requires 1 <= d <= 2048
    ensures Rem([true] + Zeros(d - 1) + [true], Bits(POLYNOMIAL)) != Zeros(32)
  {
    var t := Bits(POLYNOMIAL);
    var front := [true] + Zeros(d - 1);
    RemFromSnoc(Zeros(32), front, true, t);
    if ShiftIn(Rem(front, t), true, t) == Zeros(32) {
      LastCoefficient(Rem(front, t), t);
      RemFromSnoc(Zeros(32), front, false, t);
      NextPower(d - 1);
      PowerIsRemainder(d);
      BitsOfOne();
      BitsInjective(Power(d), 1);
      NoEarlyReturn(d);
    }
  }

  lemma TwoTermsNotDivisible(i: nat, d: nat, j: nat)
    requires 1 <= d <= 2048
    ensures !Divides(Generator(POLYNOMIAL), Zeros(i) + ([true] + Zeros(d - 1) + [true]) + Zeros(j))
  {
    var t, w := Bits(POLYNOMIAL), [true] + Zeros(d - 1) + [true];
    TwoTermsRemain(d);
    PolynomialConstantTerm();
    RemLeadingZeros(i, w, t);
    RemTrailingZeros(Zeros(i) + w, j, t);
    RemainderDecidesDivisibility(Zeros(i) + w + Zeros(j), t);
  }

  /** Buffers of any length that differ in exactly two bits, wherever they are, never match. */
  lemma TwoBitErrorDetected(e: seq<bv8>, a: seq<bv8>, i: nat, j: nat)
    requires |e| == |a| < 256 && i < j < 8 * |e|
    requires forall k | 0 <= k < 8 * |e| :: MessageBits(e)[k] != MessageBits(a)[k] <==> k == i || k == j
    ensures Compare(Some(e), Some(a), |e|) == Mismatch
  {
    assert e[..|e|] == e && a[..|a|] == a;
    assert MessageBits(e)[i] != MessageBits(a)[i];
    if |e| > 100 {
      var core, rest := [true] + Zeros(j - i - 1) + [true], 8 * |e| - 1 - j;
      assert Difference(e, a) == Zeros(i) + core + Zeros(rest);
      TwoTermsNotDivisible(i, j - i, rest);
      LongCompareIsDivisibility(e, a, |e|);
    }
  }
}
