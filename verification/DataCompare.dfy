/**
 app_data_compare and app_crc_calculate. Short buffers are compared byte by byte, buffers over
 100 bytes by CRC only; the lemmas say exactly which differences the CRC lets through.
 */
module DataCompare {
  import opened Basics
  import opened Gf2
  import opened Words
  import opened Crc

  datatype Verdict = Match | Mismatch

  const CRC_MIN_LEN := 100

  /** A pointer argument: None is the null pointer, otherwise at least `length` bytes must be readable. */
  predicate Readable(data: Option<seq<bv8>>, length: nat) {
    data.Some? ==> length <= |data.value|
  }

  function CrcCalculate(data: Option<seq<bv8>>, length: nat): bv32
    requires Readable(data, length)
  {
    if data.None? || length == 0 then 0
    else FeedBytes(INITIAL_VALUE, data.value[..length], POLYNOMIAL)
  }

  function Compare(expected: Option<seq<bv8>>, actual: Option<seq<bv8>>, length: nat): Verdict
    requires length < 256 && Readable(expected, length) && Readable(actual, length)
  {
    if expected.None? || actual.None? || length == 0 then Mismatch
    else if length > CRC_MIN_LEN then
      if CrcCalculate(expected, length) != CrcCalculate(actual, length) then Mismatch else Match
    else if expected.value[..length] != actual.value[..length] then Mismatch
    else Match
  }

  /** The compared part of two buffers, as the sum of their message polynomials. */
  function Difference(a: seq<bv8>, b: seq<bv8>): (p: Poly)
    requires |a| == |b|
    ensures |p| == 8 * |a|
  {
    Add(MessageBits(a), MessageBits(b))
  }

  lemma DifferenceZeroIffEqual(a: seq<bv8>, b: seq<bv8>)
    requires |a| == |b|
    ensures Difference(a, b) == Zeros(8 * |a|) <==> a == b
  {
    AddZeroIffEqual(MessageBits(a), MessageBits(b));
    if MessageBits(a) == MessageBits(b) {
      MessageBitsInjective(a, b);
    }
  }

  /** The generator in use has constant term 1. */
  lemma PolynomialConstantTerm()
    ensures Bits(POLYNOMIAL)[31]
  {
    LastBit(POLYNOMIAL);
  }

  /** Null or empty arguments never match, whatever the length. */
  lemma NothingNeverMatches(e: Option<seq<bv8>>, a: Option<seq<bv8>>, length: nat)
    requires length < 256 && Readable(e, length) && Readable(a, length)
    ensures e.None? || a.None? || length == 0 ==> Compare(e, a, length) == Mismatch
    ensures e.None? || length == 0 ==> CrcCalculate(e, length) == 0
  {
  }

  /** The exponents of the generator's terms. */
  lemma GeneratorTerms(k: nat)
    requires k <= 32
    ensures Coef(Generator(POLYNOMIAL), k) <==> k in {32, 26, 23, 22, 16, 12, 11, 10, 8, 7, 5, 4, 2, 1, 0}
  {
    if k < 32 {
      MaskValue(31 - k);
      TermsOfWord(31 - k);
    }
  }

  lemma TermsOfWord(i: nat)
    requires i < 32
    ensures 0x04C1_1DB7 & (0x8000_0000 as bv32 >> i) != 0 <==> i in {5, 8, 9, 15, 19, 20, 21, 23, 24, 26, 27, 29, 30, 31}
  {
  }

  /** Null or empty arguments never match; up to 100 bytes the verdict is exact equality. */
  lemma ShortCompareIsExact(e: Option<seq<bv8>>, a: Option<seq<bv8>>, length: nat)
    requires length <= 100 && Readable(e, length) && Readable(a, length)
    ensures Compare(e, a, length) == Match <==>
            e.Some? && a.Some? && length > 0 && forall i | 0 <= i < length :: e.value[i] == a.value[i]
  {
    if e.Some? && a.Some? {
      var x, y := e.value[..length], a.value[..length];
      if forall i | 0 <= i < length :: e.value[i] == a.value[i] {
        assert x == y;
      } else {
        assert exists i | 0 <= i < length :: x[i] != y[i];
      }
    }
  }

  /** Over 100 bytes the verdict is: the CRC-32 generator divides the sum of the two compared messages. */
  lemma LongCompareIsDivisibility(e: seq<bv8>, a: seq<bv8>, length: nat)
    requires 100 < length < 256 && length <= |e| && length <= |a|
    ensures Compare(Some(e), Some(a), length) == Match
       <==> Divides(Generator(POLYNOMIAL), Difference(e[..length], a[..length]))
  {
    PolynomialConstantTerm();
    EqualCrcIffDivides(INITIAL_VALUE, MessageBits(e[..length]), MessageBits(a[..length]), POLYNOMIAL);
  }

  lemma SomeOne(d: Poly) returns (k: nat)
    requires d != Zeros(|d|)
    ensures k < |d| && d[k]
  {
    k :| k < |d| && d[k];
  }

  lemma ZerosAround(d: Poly, i: nat, end: nat)
    requires i <= end <= |d| && forall k | 0 <= k < |d| && !(i <= k < end) :: !d[k]
    ensures d == Zeros(i) + d[i..end] + Zeros(|d| - end)
  {
  }

  /** A nonzero sum that vanishes outside 32 consecutive places is zeros, a short nonzero core, zeros. */
  lemma CoreOf(d: Poly, start: nat) returns (i: nat, w: Poly, j: nat)
    requires d != Zeros(|d|)
    requires forall k | 0 <= k < |d| && !(start <= k < start + 32) :: !d[k]
    ensures d == Zeros(i) + w + Zeros(j) && |w| <= 32 && w != Zeros(|w|)
  {
    var k := SomeOne(d);
    assert start <= k < start + 32;
    i := start;
    var end := if start + 32 <= |d| then start + 32 else |d|;
    w, j := d[i..end], |d| - end;
    assert w[k - i] == d[k];
    ZerosAround(d, i, end);
  }

  /**
   Buffers that differ, but only inside some 32 consecutive bits, are always told apart, whatever
   their length.
   */
  lemma BurstAlwaysDetected(e: seq<bv8>, a: seq<bv8>, start: nat)
    requires 0 < |e| == |a| < 256 && e != a
    requires forall k | 0 <= k < 8 * |e| && !(start <= k < start + 32) :: MessageBits(e)[k] == MessageBits(a)[k]
    ensures Compare(Some(e), Some(a), |e|) == Mismatch
  {
    if |e| > CRC_MIN_LEN {
      DifferenceZeroIffEqual(e, a);
      var i, w, j := CoreOf(Difference(e, a), start);
      PolynomialConstantTerm();
      BurstNotDivisible(i, w, j, Bits(POLYNOMIAL));
      LongCompareIsDivisibility(e, a, |e|);
    }
    assert e[..|e|] == e && a[..|a|] == a;
  }

  // ------------------------------------------------------------------ every divisible difference occurs

  lemma MasksDisjoint(i: nat, j: nat)
    requires i < 32 && j < 32
    ensures (0x8000_0000 as bv32 >> i) & (0x8000_0000 as bv32 >> j) != 0 <==> i == j
  {
  }

  lemma ByteMask(i: nat)
    requires i < 8
    ensures ((0x80 as bv8 >> i) as bv32) << 24 == 0x8000_0000 >> i
  {
  }

  lemma OneBitByte(i: nat)
    requires i < 8
    ensures ByteBits(0x80 >> i) == Zeros(i) + [true] + Zeros(7 - i)
  {
    ByteMask(i);
    MaskValue(i);
    var s := ByteBits(0x80 >> i);
    forall j | 0 <= j < 8 ensures s[j] == (i == j) {
      MaskValue(j);
      MasksDisjoint(i, j);
    }
  }

  lemma SetBit(r: bv8, s: Poly, i: nat) returns (b: bv8)
    requires |s| == 8 && i < 8 && s[i] && ByteBits(r) == s[i := false]
    ensures ByteBits(b) == s
  {
    OneBitByte(i);
    ByteBitsOfXor(r, 0x80 >> i);
    AddOne(s, i);
    b := r ^ (0x80 >> i);
  }

  lemma AddOne(s: Poly, i: nat)
    requires i < |s| && s[i]
    ensures Add(s[i := false], Zeros(i) + [true] + Zeros(|s| - 1 - i)) == s
  {
  }

  lemma ZeroByte() returns (b: bv8)
    ensures ByteBits(b) == Zeros(8)
  {
    b := 0;
    BitsOfZero();
  }

  /** Every sequence of eight bits is a byte. */
  lemma {:induction false} ByteOfBits(s: Poly, n: nat) returns (b: bv8)
    requires |s| == 8 && n <= 8 && forall i | n <= i < 8 :: !s[i]
    ensures ByteBits(b) == s
    decreases n
  {
    if n == 0 {
      b := ZeroByte();
    } else {
      var r := ByteOfBits(s[n - 1 := false], n - 1);
      if s[n - 1] {
        b := SetBit(r, s, n - 1);
      } else {
        b := r;
        assert s[n - 1 := false] == s;
      }
    }
  }

  lemma {:induction false} BytesOfBits(p: Poly) returns (bytes: seq<bv8>)
    requires |p| % 8 == 0
    ensures MessageBits(bytes) == p
    decreases |p|
  {
    if p == [] {
      bytes := [];
    } else {
      var n := |p| - 8;
      var front := BytesOfBits(p[..n]);
      var last := ByteOfBits(p[n..], 8);
      bytes := front + [last];
      assert bytes[..|front|] == front;
    }
  }

  /** Every multiple of the generator is the difference between the buffer and some other accepted one. */
  lemma EveryMultipleIsAccepted(e: seq<bv8>, d: Poly) returns (a: seq<bv8>)
    requires 100 < |e| < 256 && |d| == 8 * |e| && Divides(Generator(POLYNOMIAL), d)
    ensures |a| == |e| && Difference(e, a) == d && Compare(Some(e), Some(a), |e|) == Match
  {
    a := BytesOfBits(Add(MessageBits(e), d));
    assert Add(MessageBits(e), Add(MessageBits(e), d)) == d;
    LongCompareIsDivisibility(e, a, |e|);
    assert e[..|e|] == e && a[..|a|] == a;
  }

  /**
   32 is the best possible bound: for every buffer over 100 bytes and every 33 consecutive bits there
   is a different buffer, differing only there, that compares as a match.
   */
  lemma BurstBoundIsTight(e: seq<bv8>, start: nat) returns (a: seq<bv8>)
    requires 100 < |e| < 256 && start + 33 <= 8 * |e|
    ensures |a| == |e| && a != e && Compare(Some(e), Some(a), |e|) == Match
    ensures forall k | 0 <= k < 8 * |e| && !(start <= k < start + 33) :: MessageBits(e)[k] == MessageBits(a)[k]
  {
    var g, j := Generator(POLYNOMIAL), 8 * |e| - 33 - start;
    var d := Zeros(start) + g + Zeros(j);
    PolynomialConstantTerm();
    GeneratorDivisible(start, j, Bits(POLYNOMIAL));
    a := EveryMultipleIsAccepted(e, d);
    assert d[start];
    DifferenceZeroIffEqual(e, a);
    forall k | 0 <= k < 8 * |e| && !(start <= k < start + 33) ensures MessageBits(e)[k] == MessageBits(a)[k] {
      assert !Difference(e, a)[k];
    }
  }
}
