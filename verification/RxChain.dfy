/**
 Linking received buffers into a packet: HAL_ETH_RxLinkCallback appends one buffer to the chain of pbufs
 and walks the whole chain to bring every tot_len up to date.
 */
module RxChain {
  import opened Pbufs

  /** tot_len and len are 16 bits wide. */
  const LEN_SPAN := 0x1_0000

  function Sum(lens: seq<nat>): nat {
    if lens == [] then 0 else Sum(lens[..|lens| - 1]) + lens[|lens| - 1]
  }

  lemma SumSnoc(lens: seq<nat>, x: nat)
    ensures Sum(lens + [x]) == Sum(lens) + x
  {
    assert (lens + [x])[..|lens|] == lens;
  }

  lemma {:induction false} SuffixAtMostSum(lens: seq<nat>, i: nat)
    requires i <= |lens|
    ensures Sum(lens[i..]) <= Sum(lens)
  {
    if i < |lens| {
      var n := |lens| - 1;
      SuffixAtMostSum(lens[..n], i);
      SumSnoc(lens[..n][i..], lens[n]);
      assert lens[i..] == lens[..n][i..] + [lens[n]];
    }
  }

  /** The lengths of the buffers from i on, as a 16-bit counter holds them. */
  function SuffixTotal(lens: seq<nat>, i: nat): nat
    requires i <= |lens|
  {
    Sum(lens[i..]) % LEN_SPAN
  }

  function Totals(lens: seq<nat>): (t: seq<nat>)
    ensures |t| == |lens|
  {
    seq(|lens|, i requires 0 <= i < |lens| => SuffixTotal(lens, i))
  }

  function Raised(totals: seq<nat>, x: nat): (t: seq<nat>)
    ensures |t| == |totals|
  {
    seq(|totals|, i requires 0 <= i < |totals| => (totals[i] + x) % LEN_SPAN)
  }

  /** Appending a buffer adds its length to every suffix, wrapping included; its own starts from zero. */
  lemma TotalsSnoc(lens: seq<nat>, x: nat)
    ensures Raised(Totals(lens) + [0], x) == Totals(lens + [x])
  {
    var raised, n := Raised(Totals(lens) + [0], x), |lens|;
    forall i | 0 <= i <= n
      ensures raised[i] == SuffixTotal(lens + [x], i)
    {
      assert (lens + [x])[i..] == lens[i..] + [x];
      SumSnoc(lens[i..], x);
    }
  }

  /** Below 2^16 bytes no counter wraps: each total is the plain sum of its own and all later lengths. */
  lemma TotalsAreExact(lens: seq<nat>, i: nat)
    requires i <= |lens|
    ensures SuffixTotal(lens, i) == Sum(lens[i..]) % 65536
    ensures Sum(lens) < 65536 ==> SuffixTotal(lens, i) == Sum(lens[i..])
    ensures SuffixTotal(lens, 0) == Sum(lens) <==> Sum(lens) < 65536
  {
    SuffixAtMostSum(lens, i);
    assert lens[0..] == lens;
  }

  /** What the fields of the chain's buffers hold. */
  ghost predicate Holds(chain: seq<Pbuf>, lens: seq<nat>, totals: seq<nat>)
    reads chain
  {
    && |chain| == |lens| == |totals|
    && (forall i :: 0 <= i < |chain| ==> chain[i].len == lens[i] && chain[i].totLen == totals[i])
  }

  /** Every buffer holds its own length and the total of its suffix. */
  ghost predicate Measured(chain: seq<Pbuf>, lens: seq<nat>)
    reads chain
  {
    Holds(chain, lens, Totals(lens))
  }

  /** The walk over the chain that adds the new buffer's length to every tot_len. */
  method AddToTotals(start: Pbuf, end: Pbuf, length: nat,
                     ghost chain: seq<Pbuf>, ghost lens: seq<nat>, ghost totals: seq<nat>)
    requires Linked(start, end, chain) && chain != [] && Holds(chain, lens, totals)
    modifies chain
    ensures Linked(start, end, chain) && Holds(chain, lens, Raised(totals, length))
  {
    var p: Pbuf? := start;
    ghost var done := 0;
    while p != null
      invariant 0 <= done <= |chain|
      invariant p == if done < |chain| then chain[done] else null
      invariant Linked(start, end, chain)
      invariant forall i :: 0 <= i < |chain| ==> chain[i].len == lens[i]
      invariant forall i :: 0 <= i < done ==> chain[i].totLen == (totals[i] + length) % LEN_SPAN
      invariant forall i :: done <= i < |chain| ==> chain[i].totLen == totals[i]
      decreases |chain| - done
    {
      p.totLen := (p.totLen + length) % LEN_SPAN;
      p := p.next;
      done := done + 1;
    }
  }

  /** The first half of the callback: the buffer becomes the last of the chain, with no total yet. */
  method Append(start: Pbuf?, end: Pbuf?, p: Pbuf, length: nat,
                ghost chain: seq<Pbuf>, ghost lens: seq<nat>, ghost totals: seq<nat>)
    returns (start': Pbuf, end': Pbuf)
    requires Linked(start, end, chain) && Holds(chain, lens, totals) && p !in chain
    modifies chain, p
    ensures Linked(start', end', chain + [p])
    ensures Holds(chain + [p], lens + [length], totals + [0])
  {
    p.next := null;
    p.totLen := 0;
    p.len := length;
    if start == null {
      start' := p;
    } else {
      end.next := p;
      start' := start;
    }
    end' := p;
  }

  /**
   HAL_ETH_RxLinkCallback: start and end are *ppStart and *ppEnd, p is the pbuf around the buffer. end may
   be stale while start is null.
   */
  method RxLink(start: Pbuf?, end: Pbuf?, p: Pbuf, length: nat, ghost chain: seq<Pbuf>, ghost lens: seq<nat>)
    returns (start': Pbuf, end': Pbuf)
    requires Linked(start, end, chain) && Measured(chain, lens)
    requires p !in chain && length < LEN_SPAN
    modifies chain, p
    ensures Linked(start', end', chain + [p])
    ensures Measured(chain + [p], lens + [length])
  {
    start', end' := Append(start, end, p, length, chain, lens, Totals(lens));
    AddToTotals(start', end', length, chain + [p], lens + [length], Totals(lens) + [0]);
    TotalsSnoc(lens, length);
  }

  /**
   The callback over the buffers of one packet, as the driver calls it descriptor by descriptor. The
   buffers are distinct because each has one owner (see RxPool).
   */
  method LinkPacket(buffers: seq<Pbuf>, lens: seq<nat>) returns (start: Pbuf?, end: Pbuf?)
    requires |buffers| == |lens| && forall i :: 0 <= i < |lens| ==> lens[i] < LEN_SPAN
    requires forall i, j :: 0 <= i < j < |buffers| ==> buffers[i] != buffers[j]
    modifies buffers
    ensures Linked(start, end, buffers)
    ensures Measured(buffers, lens)
  {
    start, end := null, null;
    var k := 0;
    while k < |buffers|
      invariant 0 <= k <= |buffers|
      invariant Linked(start, end, buffers[..k])
      invariant Measured(buffers[..k], lens[..k])
    {
      start, end := RxLink(start, end, buffers[k], lens[k], buffers[..k], lens[..k]);
      assert buffers[..k] + [buffers[k]] == buffers[..k + 1];
      assert lens[..k] + [lens[k]] == lens[..k + 1];
      k := k + 1;
    }
    assert buffers[..k] == buffers && lens[..k] == lens;
  }
}
