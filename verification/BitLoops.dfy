/**
 The software __CLZ and __RBIT loops, proved against the bit sequences of their argument.
 */
module BitLoops {
  import opened Words

  /** The number of leading zeros of a bit sequence. */
  function Leading(s: seq<bool>): (n: nat)
    ensures n <= |s| && (forall i | 0 <= i < n :: !s[i]) && (n < |s| ==> s[n])
  {
    if s == [] || s[0] then 0 else 1 + Leading(s[1..])
  }

  function Reversed(s: seq<bool>): (r: seq<bool>)
    ensures |r| == |s| && forall i | 0 <= i < |s| :: r[i] == s[|s| - 1 - i]
  {
    if s == [] then [] else Reversed(s[1..]) + [s[0]]
  }

  lemma {:induction false} LeadingUnique(s: seq<bool>, n: nat)
    requires n <= |s| && (forall i | 0 <= i < n :: !s[i]) && (n < |s| ==> s[n])
    ensures Leading(s) == n
  {
  }

  lemma ZeroHasNoBits(w: bv32)
    ensures w == 0 <==> forall i | 0 <= i < 32 :: !Bits(w)[i]
  {
    BitsOfZero();
    if forall i | 0 <= i < 32 :: !Bits(w)[i] {
      ZeroPrefix(w, 32);
      ZeroWord(w);
    }
  }

  lemma SomeBitSet(w: bv32, n: nat)
    requires w != 0 && n <= 32 && forall i | 0 <= i < n :: !Bits(w)[i]
    ensures n < 32
  {
    ZeroHasNoBits(w);
  }

  lemma MaskedBit(w: bv32, mask: bv32, i: nat)
    requires i < 32 && mask == Mask(i)
    ensures (w & mask == 0) == !Bits(w)[i]
  {
  }

  lemma NextMask(i: nat)
    ensures Mask(i) >> 1 == Mask(i + 1)
  {
  }

  /** One turn of the loop: the mask is past a zero bit, and there is a set bit further down. */
  lemma ScanStep(data: bv32, mask: bv32, count: nat)
    requires data != 0 && count < 32 && mask == Mask(count) && data & mask == 0
    requires forall i | 0 <= i < count :: !Bits(data)[i]
    ensures count + 1 < 32 && mask >> 1 == Mask(count + 1) && !Bits(data)[count]
  {
    MaskedBit(data, mask, count);
    NextMask(count);
    SomeBitSet(data, count + 1);
  }

  method CountLeadingZeros(data: bv32) returns (count: nat)
    ensures count == Leading(Bits(data))
  {
    if data == 0 {
      ZeroHasNoBits(data);
      return 32;
    }
    count := 0;
    var mask: bv32 := 0x8000_0000;
    while data & mask == 0
      invariant count < 32 && mask == Mask(count)
      invariant forall i | 0 <= i < count :: !Bits(data)[i]
      decreases 32 - count
    {
      ScanStep(data, mask, count);
      count := count + 1;
      mask := mask >> 1;
    }
    MaskedBit(data, mask, count);
    LeadingUnique(Bits(data), count);
  }

  // ------------------------------------------------------------------ bit reversal

  lemma MaskOfLow(v: bv32, i: nat)
    requires i < 32
    ensures Bits(v & 1)[i] == (i == 31 && Bits(v)[31])
  {
    MaskValue(i);
    ShiftedAwayFromLow(v, i);
  }

  lemma ShiftedAwayFromLow(v: bv32, i: nat)
    requires i < 32
    ensures (v & 1) & (0x8000_0000 as bv32 >> i) != 0 <==> i == 31 && v & 1 != 0
  {
  }

  lemma OrHasLeft(a: bv32, b: bv32, c: bv32, i: nat)
    requires c == a | b && i < 32 && Bit(a, i)
    ensures Bit(c, i)
  {
  }

  lemma OrHasRight(a: bv32, b: bv32, c: bv32, i: nat)
    requires c == a | b && i < 32 && Bit(b, i)
    ensures Bit(c, i)
  {
  }

  lemma OrHasNeither(a: bv32, b: bv32, c: bv32, i: nat)
    requires c == a | b && i < 32 && !Bit(a, i) && !Bit(b, i)
    ensures !Bit(c, i)
  {
  }

  lemma BitOfOr(a: bv32, b: bv32, c: bv32, i: nat)
    requires c == a | b && i < 32
    ensures Bit(c, i) == (Bit(a, i) || Bit(b, i))
  {
    if Bit(a, i) {
      OrHasLeft(a, b, c, i);
    } else if Bit(b, i) {
      OrHasRight(a, b, c, i);
    } else {
      OrHasNeither(a, b, c, i);
    }
  }

  lemma BitOfLow(v: bv32, low: bv32, i: nat)
    requires i < 32 && low == v & 1
    ensures Bits(low)[i] == (i == 31 && Bits(v)[31])
  {
    MaskOfLow(v, i);
  }

  /** Or-ing in the last bit of v puts it in the place that a left shift left empty. */
  lemma AppendBit(r: bv32, shifted: bv32, v: bv32, low: bv32, out: bv32)
    requires shifted == r << 1 && low == v & 1 && out == shifted | low
    ensures Bits(out) == Bits(r)[1..] + [Bits(v)[31]]
  {
    BitsOfShiftLeft(r);
    var s := Bits(r)[1..] + [Bits(v)[31]];
    forall i | 0 <= i < 32 ensures Bits(out)[i] == s[i] {
      BitOfOr(shifted, low, out, i);
      BitOfLow(v, low, i);
      assert Bits(shifted)[i] == (Bits(r)[1..] + [false])[i];
    }
  }

  function CountDown(n: bv8): (p: bv8)
    requires 0 < n < 32
    ensures p < 31 && p as nat == n as nat - 1 && p == n - 1
  {
    n - 1
  }

  lemma ShiftByStep(w: bv32, n: bv8)
    requires 0 < n < 32
    ensures (w << (n - 1)) << 1 == w << n
  {
  }

  lemma ShiftedBits(u: bv32, v: bv32)
    requires u << 1 == v
    ensures Bits(v) == Bits(u)[1..] + [false]
  {
    BitsOfShiftLeft(u);
  }

  lemma BitsOfShiftByStep(w: bv32, n: bv8)
    requires 0 < n < 32
    ensures Bits(w << n) == Bits(w << (n - 1))[1..] + [false]
  {
    ShiftByStep(w, n);
    ShiftedBits(w << (n - 1), w << n);
  }

  lemma ShiftByNone(w: bv32, n: bv8)
    requires n == 0
    ensures Bits(w << n) == Bits(w)[n as nat..] + Zeros(n as nat)
  {
    assert w << n == w;
  }

  lemma DropOneMore(b: seq<bool>, p: nat)
    requires p < |b|
    ensures (b[p..] + Zeros(p))[1..] + [false] == b[p + 1..] + Zeros(p + 1)
  {
  }

  lemma {:induction false} BitsOfShiftBy(w: bv32, n: bv8)
    requires n < 32
    ensures Bits(w << n) == Bits(w)[n as nat..] + Zeros(n as nat)
    decreases n as nat
  {
    if n == 0 {
      ShiftByNone(w, n);
    } else {
      var p := CountDown(n);
      BitsOfShiftBy(w, p);
      BitsOfShiftByStep(w, n);
      DropOneMore(Bits(w), p as nat);
    }
  }

  /**
   What the loop has after k rounds, for a word with bits b: in r the bits from k on and then, reversed,
   the k bits above the last; in v the bits still to come.
   */
  ghost predicate HalfReversed(b: seq<bool>, k: nat, r: seq<bool>, v: seq<bool>)
    requires |b| == 32
  {
    k < 32 && r == b[k..] + Reversed(b[31 - k..31]) && v == Zeros(k + 1) + b[..31 - k]
  }

  lemma DropFirst(s: seq<bool>, t: seq<bool>)
    requires s != []
    ensures (s + t)[1..] == s[1..] + t
  {
  }

  lemma ShiftDown(b: seq<bool>, k: nat)
    requires |b| == 32 && k < 31
    ensures [false] + (Zeros(k + 1) + b[..31 - k])[..31] == Zeros(k + 2) + b[..30 - k]
  {
    assert (Zeros(k + 1) + b[..31 - k])[..31] == Zeros(k + 1) + b[..30 - k];
    assert [false] + Zeros(k + 1) == Zeros(k + 2);
  }

  lemma HalfReversedRound(b: seq<bool>, k: nat, r: seq<bool>, v: seq<bool>)
    requires |b| == 32 && k < 31 && HalfReversed(b, k, r, v)
    ensures HalfReversed(b, k + 1, r[1..] + [v[31]], [false] + v[..31])
  {
    var x, tail := b[30 - k], Reversed(b[31 - k..31]);
    assert v[31] == x;
    ReversedAppend(b, 30 - k, k);
    DropFirst(b[k..], tail);
    assert b[k..][1..] == b[k + 1..];
    assert (b[k + 1..] + tail) + [x] == b[k + 1..] + (tail + [x]);
    ShiftDown(b, k);
  }

  lemma ReversedAppend(b: seq<bool>, i: nat, k: nat)
    requires i + 1 + k <= |b|
    ensures Reversed(b[i..i + 1 + k]) == Reversed(b[i + 1..i + 1 + k]) + [b[i]]
  {
    assert b[i..i + 1 + k][1..] == b[i + 1..i + 1 + k];
  }

  lemma {:induction false} ReversedConcat(s: seq<bool>, t: seq<bool>)
    ensures Reversed(s + t) == Reversed(t) + Reversed(s)
  {
    if s == [] {
      assert s + t == t;
    } else {
      ReversedConcat(s[1..], t);
      assert (s + t)[1..] == s[1..] + t;
    }
  }

  lemma {:induction false} ReversedZeros(n: nat)
    ensures Reversed(Zeros(n)) == Zeros(n)
  {
  }

  lemma PrefixIsZeros(b: seq<bool>, k: nat)
    requires |b| == 32 && k < 32 && Zeros(32) == Zeros(k + 1) + b[..31 - k]
    ensures b[..31 - k] == Zeros(31 - k)
  {
    assert b[..31 - k] == Zeros(32)[k + 1..];
  }

  lemma ReversedThree(front: seq<bool>, mid: seq<bool>, last: bool)
    ensures Reversed(front + (mid + [last])) == ([last] + Reversed(mid)) + Reversed(front)
  {
    ReversedConcat(front, mid + [last]);
    ReversedConcat(mid, [last]);
    assert Reversed([last]) == [last];
  }

  lemma InThree(b: seq<bool>, m: nat)
    requires m < |b|
    ensures b == b[..m] + (b[m..|b| - 1] + [b[|b| - 1]])
    ensures b[|b| - 1 - m..][m..] == [b[|b| - 1]]
  {
  }

  lemma HalfReversedDone(b: seq<bool>, k: nat, r: seq<bool>)
    requires |b| == 32 && HalfReversed(b, k, r, Zeros(32))
    ensures r[31 - k..] + Zeros(31 - k) == Reversed(b)
  {
    var m := 31 - k;
    PrefixIsZeros(b, k);
    InThree(b, m);
    ReversedThree(b[..m], b[m..31], b[31]);
    ReversedZeros(m);
    DropMany(b[k..], Reversed(b[m..31]), m);
  }

  lemma DropMany(s: seq<bool>, t: seq<bool>, m: nat)
    requires m <= |s|
    ensures (s + t)[m..] == s[m..] + t
  {
  }

  lemma ZeroWordIsZeros(w: bv32)
    ensures w == 0 <==> Bits(w) == Zeros(32)
  {
    ZeroHasNoBits(w);
    if Bits(w) == Zeros(32) {
      assert forall i | 0 <= i < 32 :: !Bits(w)[i];
    }
  }

  lemma RoundOnWords(b: seq<bool>, k: nat, r: bv32, v: bv32, shifted: bv32, low: bv32, out: bv32, next: bv32)
    requires |b| == 32 && HalfReversed(b, k, Bits(r), Bits(v)) && v != 0
    requires shifted == r << 1 && low == v & 1 && out == shifted | low && next == v >> 1
    ensures k < 31 && HalfReversed(b, k + 1, Bits(out), Bits(next))
  {
    ZeroWordIsZeros(v);
    assert Zeros(32) + b[..0] == Zeros(32);
    AppendBit(r, shifted, v, low, out);
    BitsOfShiftRight(v);
    HalfReversedRound(b, k, Bits(r), Bits(v));
  }

  lemma FirstRound(w: bv32)
    ensures HalfReversed(Bits(w), 0, Bits(w), Bits(w >> 1))
  {
    BitsOfShiftRight(w);
    assert Bits(w)[0..] + Reversed(Bits(w)[31..31]) == Bits(w);
    assert Zeros(1) + Bits(w)[..31] == [false] + Bits(w)[..31];
  }

  lemma LastRound(b: seq<bool>, k: nat, r: bv32, sc: bv8)
    requires |b| == 32 && k < 32 && sc < 32 && sc as nat == 31 - k && HalfReversed(b, k, Bits(r), Bits(0))
    ensures Bits(r << sc) == Reversed(b)
  {
    ZeroWordIsZeros(0);
    HalfReversedDone(b, k, Bits(r));
    BitsOfShiftBy(r, sc);
  }

  method ReverseBits(w: bv32) returns (r: bv32)
    ensures Bits(r) == Reversed(Bits(w))
  {
    var sc: bv8 := 31;
    r := w;
    var v := w >> 1;
    ghost var b, k := Bits(w), 0;
    FirstRound(w);
    while v != 0
      invariant k < 32 && sc < 32 && sc as nat == 31 - k && HalfReversed(b, k, Bits(r), Bits(v))
      decreases 31 - k
    {
      var shifted := r << 1;
      var low := v & 1;
      var out := shifted | low;
      var next := v >> 1;
      RoundOnWords(b, k, r, v, shifted, low, out, next);
      r, v := out, next;
      sc := CountDown(sc);
      k := k + 1;
    }
    LastRound(b, k, r, sc);
    return r << sc;
  }

  /** Reversing twice gives the word back. */
  lemma ReverseInvolution(w: bv32, r: bv32, u: bv32)
    requires Bits(r) == Reversed(Bits(w)) && Bits(u) == Reversed(Bits(r))
    ensures u == w
  {
    assert Reversed(Reversed(Bits(w))) == Bits(w);
    BitsInjective(u, w);
  }

  /** The number of zeros at the low end of a bit sequence. */
  function Trailing(s: seq<bool>): (n: nat)
    ensures n <= |s|
  {
    if s == [] || s[|s| - 1] then 0 else 1 + Trailing(s[..|s| - 1])
  }

  /** Counting leading zeros after a reversal counts the trailing zeros. */
  lemma {:induction false} LeadingOfReversed(s: seq<bool>)
    ensures Leading(Reversed(s)) == Trailing(s)
  {
    if s != [] {
      var n := |s| - 1;
      LeadingOfReversed(s[..n]);
      assert Reversed(s) == [s[n]] + Reversed(s[..n]);
    }
  }
}
