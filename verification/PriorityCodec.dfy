/**
 NVIC_EncodePriority and NVIC_DecodePriority: packing a preemption priority and a subpriority into the
 implemented priority bits, split as the priority group asks. `bits` is the device constant
 __NVIC_PRIO_BITS, at most 8 because a priority field is a byte.
 */
module PriorityCodec {

  function PreemptBits(group: bv32, bits: bv32): (n: bv32)
    requires bits <= 8
    ensures n <= bits
  {
    var g := group & 0x07;
    if 7 - g > bits then bits else 7 - g
  }

  function SubBits(group: bv32, bits: bv32): (n: bv32)
    requires bits <= 8
    ensures n <= bits
  {
    var g := group & 0x07;
    if g + bits < 7 then 0 else (g - 7) + bits
  }

  /** The low n bits of a word. */
  function Low(x: bv32, n: bv32): bv32
    requires n <= 8
  {
    x & ((1 << n) - 1)
  }

  /** The preemption field has the bits above the binary point that are implemented, and the subpriority the rest. */
  lemma FieldWidths(group: bv32, bits: bv32)
    requires bits <= 8
    ensures PreemptBits(group, bits) + SubBits(group, bits) == bits
    ensures 7 - (group & 7) <= bits ==> PreemptBits(group, bits) == 7 - (group & 7)
    ensures 7 - (group & 7) >= bits ==> PreemptBits(group, bits) == bits
  {
  }

  /** One field above another of sb bits. */
  function Join(high: bv32, low: bv32, sb: bv32): bv32
    requires sb <= 8
  {
    (high << sb) | low
  }

  function Encode(group: bv32, preempt: bv32, sub: bv32, bits: bv32): bv32
    requires bits <= 8
  {
    var pb, sb := PreemptBits(group, bits), SubBits(group, bits);
    Join(Low(preempt, pb), Low(sub, sb), sb)
  }

  datatype Fields = Fields(preempt: bv32, sub: bv32)

  function Decode(priority: bv32, group: bv32, bits: bv32): Fields
    requires bits <= 8
  {
    var pb, sb := PreemptBits(group, bits), SubBits(group, bits);
    Fields(Low(priority >> sb, pb), Low(priority, sb))
  }

  // ------------------------------------------------------------------ fields of any two widths

  predicate Fits(x: bv32, n: bv32)
    requires n <= 8
  {
    Low(x, n) == x
  }

  lemma LowFits(x: bv32, n: bv32, low: bv32)
    requires n <= 8 && low == Low(x, n)
    ensures Fits(low, n) && Fits(low, 8)
  {
  }

  lemma JoinFits(h: bv32, l: bv32, pb: bv32, sb: bv32)
    requires pb <= 8 && sb <= 8 && pb + sb <= 8 && Fits(h, pb) && Fits(l, sb)
    ensures Join(h, l, sb) < 1 << (pb + sb)
  {
  }

  lemma SplitJoined(h: bv32, l: bv32, pb: bv32, sb: bv32)
    requires pb <= 8 && sb <= 8 && Fits(h, pb) && Fits(l, sb)
    ensures Low(Join(h, l, sb) >> sb, pb) == h
    ensures Low(Join(h, l, sb), sb) == l
  {
  }

  lemma JoinSplit(x: bv32, pb: bv32, sb: bv32)
    requires pb <= 8 && sb <= 8 && pb + sb <= 8 && x < 1 << (pb + sb)
    ensures Join(Low(x >> sb, pb), Low(x, sb), sb) == x
  {
  }

  lemma HigherWinsAt0(h: bv32, l: bv32, h': bv32, l': bv32, x: bv32, x': bv32)
    requires h < h' && Fits(h', 8) && Fits(l, 0) && x == Join(h, l, 0) && x' == Join(h', l', 0)
    ensures x < x'
  {
  }

  lemma HigherWinsAt1(h: bv32, l: bv32, h': bv32, l': bv32, x: bv32, x': bv32)
    requires h < h' && Fits(h', 8) && Fits(l, 1) && x == Join(h, l, 1) && x' == Join(h', l', 1)
    ensures x < x'
  {
  }

  lemma HigherWinsAt2(h: bv32, l: bv32, h': bv32, l': bv32, x: bv32, x': bv32)
    requires h < h' && Fits(h', 8) && Fits(l, 2) && x == Join(h, l, 2) && x' == Join(h', l', 2)
    ensures x < x'
  {
  }

  lemma HigherWinsAt3(h: bv32, l: bv32, h': bv32, l': bv32, x: bv32, x': bv32)
    requires h < h' && Fits(h', 8) && Fits(l, 3) && x == Join(h, l, 3) && x' == Join(h', l', 3)
    ensures x < x'
  {
  }

  lemma HigherWinsAt4(h: bv32, l: bv32, h': bv32, l': bv32, x: bv32, x': bv32)
    requires h < h' && Fits(h', 8) && Fits(l, 4) && x == Join(h, l, 4) && x' == Join(h', l', 4)
    ensures x < x'
  {
  }

  lemma HigherWinsAt5(h: bv32, l: bv32, h': bv32, l': bv32, x: bv32, x': bv32)
    requires h < h' && Fits(h', 8) && Fits(l, 5) && x == Join(h, l, 5) && x' == Join(h', l', 5)
    ensures x < x'
  {
  }

  lemma HigherWinsAt6(h: bv32, l: bv32, h': bv32, l': bv32, x: bv32, x': bv32)
    requires h < h' && Fits(h', 8) && Fits(l, 6) && x == Join(h, l, 6) && x' == Join(h', l', 6)
    ensures x < x'
  {
  }

  lemma HigherWinsAt7(h: bv32, l: bv32, h': bv32, l': bv32, x: bv32, x': bv32)
    requires h < h' && Fits(h', 8) && Fits(l, 7) && x == Join(h, l, 7) && x' == Join(h', l', 7)
    ensures x < x'
  {
  }

  lemma HigherWinsAt8(h: bv32, l: bv32, h': bv32, l': bv32, x: bv32, x': bv32)
    requires h < h' && Fits(h', 8) && Fits(l, 8) && x == Join(h, l, 8) && x' == Join(h', l', 8)
    ensures x < x'
  {
  }

  /** A greater high field wins, whatever the low fields. */
  lemma HigherFieldWins(h: bv32, l: bv32, h': bv32, l': bv32, sb: bv32, x: bv32, x': bv32)
    requires sb <= 8 && h < h' && Fits(h', 8) && Fits(l, sb) && x == Join(h, l, sb) && x' == Join(h', l', sb)
    ensures x < x'
  {
    if sb == 0 {
      HigherWinsAt0(h, l, h', l', x, x');
    } else if sb == 1 {
      HigherWinsAt1(h, l, h', l', x, x');
    } else if sb == 2 {
      HigherWinsAt2(h, l, h', l', x, x');
    } else if sb == 3 {
      HigherWinsAt3(h, l, h', l', x, x');
    } else if sb == 4 {
      HigherWinsAt4(h, l, h', l', x, x');
    } else if sb == 5 {
      HigherWinsAt5(h, l, h', l', x, x');
    } else if sb == 6 {
      HigherWinsAt6(h, l, h', l', x, x');
    } else if sb == 7 {
      HigherWinsAt7(h, l, h', l', x, x');
    } else {
      HigherWinsAt8(h, l, h', l', x, x');
    }
  }

  lemma LowerFieldDecides(h: bv32, l: bv32, l': bv32, sb: bv32, x: bv32, x': bv32)
    requires sb <= 8 && l < l' && Fits(l, sb) && Fits(l', sb) && x == Join(h, l, sb) && x' == Join(h, l', sb)
    ensures x < x'
  {
  }

  lemma OneWayOnly(a: bv32, b: bv32)
    requires a < b
    ensures !(b < a) && a != b
  {
  }

  lemma InOneOrder(a: bv32, b: bv32)
    requires Fits(a, 8) && Fits(b, 8) && !(a < b) && !(b < a)
    ensures a == b
  {
  }

  /** Joined fields are in the lexicographic order of the fields. */
  lemma JoinedOrder(h: bv32, l: bv32, h': bv32, l': bv32, sb: bv32, x: bv32, x': bv32)
    requires sb <= 8 && Fits(h, 8) && Fits(l, sb) && Fits(h', 8) && Fits(l', sb) && Fits(l, 8) && Fits(l', 8)
    requires x == Join(h, l, sb) && x' == Join(h', l', sb)
    ensures x < x' <==> h < h' || (h == h' && l < l')
  {
    if h < h' {
      HigherFieldWins(h, l, h', l', sb, x, x');
    } else if h' < h {
      OneWayOnly(h', h);
      HigherFieldWins(h', l', h, l, sb, x', x);
      OneWayOnly(x', x);
    } else {
      InOneOrder(h, h');
      if l < l' {
        LowerFieldDecides(h, l, l', sb, x, x');
      } else if l' < l {
        LowerFieldDecides(h, l', l, sb, x', x);
        OneWayOnly(x', x);
      } else {
        InOneOrder(l, l');
      }
    }
  }

  // ------------------------------------------------------------------ the codec

  /** Decoding an encoded priority gives both fields back, each cut to its width. */
  lemma DecodeOfEncode(group: bv32, preempt: bv32, sub: bv32, bits: bv32)
    requires bits <= 8
    ensures Encode(group, preempt, sub, bits) < 1 << bits
    ensures Decode(Encode(group, preempt, sub, bits), group, bits)
         == Fields(Low(preempt, PreemptBits(group, bits)), Low(sub, SubBits(group, bits)))
  {
    var pb, sb := PreemptBits(group, bits), SubBits(group, bits);
    var h, l := Low(preempt, pb), Low(sub, sb);
    FieldWidths(group, bits);
    LowFits(preempt, pb, h);
    LowFits(sub, sb, l);
    JoinFits(h, l, pb, sb);
    SplitJoined(h, l, pb, sb);
  }

  /** Every value that fits the implemented bits is the encoding of its own fields. */
  lemma EncodeOfDecode(priority: bv32, group: bv32, bits: bv32)
    requires bits <= 8 && priority < 1 << bits
    ensures var f := Decode(priority, group, bits); Encode(group, f.preempt, f.sub, bits) == priority
  {
    var pb, sb := PreemptBits(group, bits), SubBits(group, bits);
    FieldWidths(group, bits);
    LowFits(priority >> sb, pb, Low(priority >> sb, pb));
    LowFits(priority, sb, Low(priority, sb));
    JoinSplit(priority, pb, sb);
  }

  /**
   The binary point. Left-aligned in its byte, a priority has the preemption field above bit g, where g is the
   group, and the subpriority field in bit g and below, as far as these bits are implemented.
   */
  lemma BinaryPoint(x: bv32, group: bv32, bits: bv32, g: bv32, byte: bv32)
    requires bits <= 8 && x < 1 << bits && g == group & 7 && byte == x << (8 - bits)
    ensures Decode(x, group, bits).preempt == if 8 - bits <= g + 1 then byte >> (g + 1) else byte >> (8 - bits)
    ensures Decode(x, group, bits).sub == (byte & ((2 << g) - 1)) >> (8 - bits)
  {
  }

  /** So two priorities of a group preempt alike exactly if they agree above the binary point. */
  lemma SamePreemption(x: bv32, y: bv32, group: bv32, bits: bv32, g: bv32)
    requires bits <= 8 && x < 1 << bits && y < 1 << bits && g == group & 7
    ensures Decode(x, group, bits).preempt == Decode(y, group, bits).preempt
       <==> (x << (8 - bits)) >> (g + 1) == (y << (8 - bits)) >> (g + 1)
  {
    if Decode(x, group, bits).preempt == Decode(y, group, bits).preempt {
      AlikeAbove(x, y, group, bits, g);
    } else if (x << (8 - bits)) >> (g + 1) == (y << (8 - bits)) >> (g + 1) {
      AboveAlike(x, y, group, bits, g);
      assert false;
    }
  }

  lemma AlikeAbove(x: bv32, y: bv32, group: bv32, bits: bv32, g: bv32)
    requires bits <= 8 && x < 1 << bits && y < 1 << bits && g == group & 7
    requires Decode(x, group, bits).preempt == Decode(y, group, bits).preempt
    ensures (x << (8 - bits)) >> (g + 1) == (y << (8 - bits)) >> (g + 1)
  {
  }

  lemma AboveAlike(x: bv32, y: bv32, group: bv32, bits: bv32, g: bv32)
    requires bits <= 8 && x < 1 << bits && y < 1 << bits && g == group & 7
    requires (x << (8 - bits)) >> (g + 1) == (y << (8 - bits)) >> (g + 1)
    ensures Decode(x, group, bits).preempt == Decode(y, group, bits).preempt
  {
  }

  /** In group 3 with four implemented bits, as the firmware sets it, the code is the preemption priority alone. */
  lemma ConfiguredGroup(preempt: bv32, sub: bv32)
    ensures Encode(3, preempt, sub, 4) == preempt & 15
  {
  }

  /**
   Encoded priorities of one group are in the lexicographic order of their fields, cut to their widths: x
   with the fields h and l comes before x' with h' and l' exactly if h is smaller, or h is the same and l is
   smaller.
   */
  lemma EncodedOrder(group: bv32, bits: bv32, pb: bv32, sb: bv32,
                     p: bv32, s: bv32, h: bv32, l: bv32, x: bv32,
                     p': bv32, s': bv32, h': bv32, l': bv32, x': bv32)
    requires bits <= 8 && pb == PreemptBits(group, bits) && sb == SubBits(group, bits)
    requires h == Low(p, pb) && l == Low(s, sb) && x == Encode(group, p, s, bits)
    requires h' == Low(p', pb) && l' == Low(s', sb) && x' == Encode(group, p', s', bits)
    ensures x < x' <==> h < h' || (h == h' && l < l')
  {
    LowFits(p, pb, h);
    LowFits(s, sb, l);
    LowFits(p', pb, h');
    LowFits(s', sb, l');
    JoinedOrder(h, l, h', l', sb, x, x');
  }
}
