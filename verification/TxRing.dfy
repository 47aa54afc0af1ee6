/**
 The ring of transmit descriptors. A packet takes one descriptor for each of its buffers, and its address is
 stored at its last one. The DMA finishes descriptors in order, one at a time; a release walks the ring by
 index from where the last one stopped. A descriptor is free once the DMA has finished it and no address is
 stored there, so the first descriptors of a packet can be taken again while the packet is still held.
 */
module TxRing {
  import opened Basics

  const DESCRIPTORS := 4

  /** BuffersInUse is an unsigned 32-bit number. */
  const SPAN := 0x1_0000_0000

  /** A held packet, with its number in the order of acceptance as a history. */
  datatype Entry<P> = Entry(packet: P, number: nat)

  /**
   OWN and PacketAddress of every descriptor, CurTxDesc, the descriptor that the DMA is at, releaseIndex,
   BuffersInUse, and how many packets have been accepted.
   */
  datatype Ring<P> = Ring(own: seq<bool>, address: seq<Option<Entry<P>>>,
                          cur: nat, dma: nat, release: nat, inUse: nat, accepted: nat)

  function Empty<P>(): Ring<P> {
    Ring([false, false, false, false], [None, None, None, None], 0, 0, 0, 0, 0)
  }

  predicate Shaped<P>(r: Ring<P>) {
    && |r.own| == DESCRIPTORS && |r.address| == DESCRIPTORS
    && r.cur < DESCRIPTORS && r.dma < DESCRIPTORS && r.release < DESCRIPTORS && r.inUse < SPAN
  }

  /** INCR_TX_DESC_INDEX. */
  function Incr(i: nat): (j: nat)
    requires i < DESCRIPTORS
    ensures j < DESCRIPTORS && j == (i + 1) % DESCRIPTORS
  {
    if i + 1 >= DESCRIPTORS then i + 1 - DESCRIPTORS else i + 1
  }

  /** n descriptors on from descriptor i. */
  function Plus(i: nat, n: nat): (j: nat)
    requires i < DESCRIPTORS && n <= DESCRIPTORS
    ensures j < DESCRIPTORS && (n < DESCRIPTORS ==> Steps(i, j) == n) && (n == DESCRIPTORS ==> j == i)
  {
    if i + n >= DESCRIPTORS then i + n - DESCRIPTORS else i + n
  }

  /** How many descriptors on from `from` descriptor i is. */
  function Steps(from: nat, i: nat): (k: nat)
    requires from < DESCRIPTORS && i < DESCRIPTORS
    ensures k < DESCRIPTORS && (k == 0 <==> from == i)
  {
    if from <= i then i - from else i + DESCRIPTORS - from
  }

  predicate Free<P>(r: Ring<P>, i: nat)
    requires Shaped(r) && i < DESCRIPTORS
  {
    !r.own[i] && r.address[i].None?
  }

  /** The n descriptors from the current one on are free. */
  predicate HasRoom<P>(r: Ring<P>, n: nat)
    requires Shaped(r)
  {
    forall i :: 0 <= i < DESCRIPTORS && Steps(r.cur, i) < n ==> Free(r, i)
  }

  /** The last descriptor that a packet of n buffers takes. */
  function LastOf<P>(r: Ring<P>, n: nat): (i: nat)
    requires Shaped(r) && 1 <= n <= DESCRIPTORS
    ensures i < DESCRIPTORS && Steps(r.cur, i) == n - 1
  {
    Plus(r.cur, n - 1)
  }

  function WithWrap(x: nat): (y: nat)
    requires x < 2 * SPAN
    ensures y < SPAN && y == x % SPAN
  {
    if x >= SPAN then x - SPAN else x
  }

  /** What accepting a packet of n buffers does to the ring. */
  function Taken<P>(r: Ring<P>, p: P, n: nat): (t: Ring<P>)
    requires Shaped(r) && 1 <= n <= DESCRIPTORS
    ensures Shaped(t)
  {
    r.(own := seq(DESCRIPTORS, i requires 0 <= i < DESCRIPTORS => r.own[i] || Steps(r.cur, i) < n),
       address := r.address[LastOf(r, n) := Some(Entry(p, r.accepted))],
       cur := Plus(r.cur, n), inUse := WithWrap(r.inUse + n), accepted := r.accepted + 1)
  }

  /** The DMA finishes the descriptor it is at, if it has one to work on. */
  function FinishedOne<P>(r: Ring<P>): (t: Ring<P>)
    requires Shaped(r)
    ensures Shaped(t) && t == r.(own := t.own, dma := t.dma)
  {
    if r.own[r.dma] then r.(own := r.own[r.dma := false], dma := Incr(r.dma)) else r
  }

  function Finished<P>(r: Ring<P>, k: nat): (t: Ring<P>)
    requires Shaped(r)
    ensures Shaped(t) && t == r.(own := t.own, dma := t.dma)
    decreases k
  {
    if k == 0 then r else Finished(FinishedOne(r), k - 1)
  }

  /** A release frees the packet at descriptor i, with `left` descriptors to examine, that one included. */
  function FreedAt<P>(r: Ring<P>, i: nat, left: nat): Ring<P>
    requires Shaped(r) && i < DESCRIPTORS && 0 < left <= r.inUse
  {
    r.(address := r.address[i := None], inUse := left - 1, release := Incr(i))
  }

  /** The loop of HAL_ETH_ReleaseTxPacket at descriptor i with `left` descriptors still to examine. */
  function ReleasedFrom<P>(r: Ring<P>, i: nat, left: nat): (t: Ring<P>)
    requires Shaped(r) && i < DESCRIPTORS && left <= r.inUse
    ensures Shaped(t) && t.own == r.own && t.cur == r.cur && t.dma == r.dma && t.accepted == r.accepted
    ensures t.inUse <= r.inUse
    decreases left
  {
    if left == 0 then r
    else if r.address[i].None? then ReleasedFrom(r, Incr(i), left - 1)
    else if r.own[i] then r
    else ReleasedFrom(FreedAt(r, i, left), Incr(i), left - 1)
  }

  function Released<P>(r: Ring<P>): (t: Ring<P>)
    requires Shaped(r)
    ensures Shaped(t) && t.inUse <= r.inUse
  {
    ReleasedFrom(r, r.release, r.inUse)
  }

  // ------------------------------------------------------------------ the packets that are held

  function PacketOf<P(==)>(e: Option<Entry<P>>): multiset<P> {
    if e.Some? then multiset{e.value.packet} else multiset{}
  }

  /** The packets whose addresses are stored. */
  function Stored<P(==)>(address: seq<Option<Entry<P>>>): multiset<P> {
    if address == [] then multiset{} else PacketOf(address[0]) + Stored(address[1..])
  }

  lemma WithHead<P>(head: multiset<P>, a: multiset<P>, x: multiset<P>, b: multiset<P>, y: multiset<P>)
    requires a + x == b + y
    ensures (head + a) + x == (head + b) + y
  {
    assert (head + a) + x == head + (a + x);
    assert (head + b) + y == head + (b + y);
  }

  lemma {:induction false} StoredOfUpdate<P>(address: seq<Option<Entry<P>>>, i: nat, e: Option<Entry<P>>)
    requires i < |address|
    ensures Stored(address[i := e]) + PacketOf(address[i]) == Stored(address) + PacketOf(e)
    decreases i
  {
    if i == 0 {
      assert address[0 := e][1..] == address[1..];
    } else {
      StoredOfUpdate(address[1..], i - 1, e);
      assert address[i := e][1..] == address[1..][i - 1 := e];
      WithHead(PacketOf(address[0]), Stored(address[1..][i - 1 := e]), PacketOf(address[i]), Stored(address[1..]), PacketOf(e));
    }
  }

  lemma StoredOfTaken<P>(r: Ring<P>, p: P, n: nat)
    requires Shaped(r) && 1 <= n <= DESCRIPTORS && HasRoom(r, n)
    ensures Stored(Taken(r, p, n).address) == Stored(r.address) + multiset{p}
  {
    assert Free(r, LastOf(r, n));
    StoredOfUpdate(r.address, LastOf(r, n), Some(Entry(p, r.accepted)));
  }

  lemma StoredOfFreed<P>(r: Ring<P>, i: nat, left: nat)
    requires Shaped(r) && i < DESCRIPTORS && 0 < left <= r.inUse && r.address[i].Some?
    ensures Stored(FreedAt(r, i, left).address) + multiset{r.address[i].value.packet} == Stored(r.address)
  {
    StoredOfUpdate(r.address, i, None);
  }

  /** Addresses can only be taken away. */
  lemma {:induction false} StoredOfFewer<P>(some: seq<Option<Entry<P>>>, all: seq<Option<Entry<P>>>)
    requires |some| == |all| && forall j :: 0 <= j < |all| ==> some[j] == all[j] || some[j].None?
    ensures Stored(some) <= Stored(all)
    decreases |all|
  {
    if all != [] {
      StoredOfFewer(some[1..], all[1..]);
      assert some[0] == all[0] || some[0].None?;
    }
  }
}
