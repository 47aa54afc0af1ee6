/** The transmitting half of the Ethernet driver: preparing descriptors for a packet and releasing packets. */
module TxDriver {
  import opened Basics
  import opened TxRing

  /** One entry of the driver's list; `next` is the index of the entry it points to. */
  datatype TxBuffer = TxBuffer(buffer: nat, len: nat, next: Option<nat>)

  /** The first n entries are linked in order and end there. */
  predicate Links(buffers: seq<TxBuffer>, n: nat) {
    && 1 <= n <= |buffers|
    && forall i :: 0 <= i < n ==> buffers[i].next == if i + 1 < n then Some(i + 1) else None
  }

  /**
   `busy` is the HAL_ETH_ERROR_BUSY bit of the driver's error code, which nothing clears once the driver is
   initialised; `refs` counts the references to packets.
   */
  datatype Driver<P(==)> = Driver(busy: bool, ring: Ring<P>, refs: multiset<P>)

  /** A release with its callback, which drops one reference of each released packet. */
  function Freed<P>(d: Driver<P>): (t: Driver<P>)
    requires Shaped(d.ring)
    ensures Shaped(t.ring)
  {
    var ring := Released(d.ring);
    Driver(d.busy, ring, d.refs - (Stored(d.ring.address) - Stored(ring.address)))
  }

  /** Descriptor j is among the first n from `first` on. */
  predicate Among(first: nat, n: nat, j: nat)
    requires first < DESCRIPTORS && j < DESCRIPTORS
  {
    Steps(first, j) < n
  }

  lemma NextAmong(first: nat, n: nat, j: nat)
    requires first < DESCRIPTORS && j < DESCRIPTORS && n < DESCRIPTORS
    ensures Among(first, n + 1, j) <==> Among(first, n, j) || j == Plus(first, n)
    ensures Plus(first, n) == j ==> !Among(first, n, j)
  {
  }

  lemma IncrPlus(first: nat, n: nat)
    requires first < DESCRIPTORS && n < DESCRIPTORS
    ensures Incr(Plus(first, n)) == Plus(first, n + 1)
  {
  }

  lemma OwnOfTaken<P>(r: Ring<P>, p: P, n: nat, own: seq<bool>)
    requires Shaped(r) && 1 <= n <= DESCRIPTORS && |own| == DESCRIPTORS
    requires forall j :: 0 <= j < DESCRIPTORS ==> own[j] == (r.own[j] || Among(r.cur, n, j))
    ensures Taken(r, p, n).own == own
  {
  }

  lemma DropOne<P>(refs: multiset<P>, all: multiset<P>, held: multiset<P>, left: multiset<P>, p: P)
    requires left + multiset{p} == held && held <= all
    ensures (refs - (all - held)) - multiset{p} == refs - (all - left) && left <= all
  {
    assert left <= held;
    assert all - left == (all - held) + multiset{p};
  }

  /** The driver's handle with its descriptors; `accepted` is a history. */
  class EthHandle<P(==)> {
    const own: array<bool>
    const address: array<Option<Entry<P>>>
    var cur: nat
    var dma: nat
    var release: nat
    var inUse: nat
    var accepted: nat
    var busy: bool
    var refs: multiset<P>

    function TheRing(): Ring<P>
      reads this, own, address
    {
      Ring(own[..], address[..], cur, dma, release, inUse, accepted)
    }

    function View(): Driver<P>
      reads this, own, address
    {
      Driver(busy, TheRing(), refs)
    }

    predicate Valid()
      reads this, own, address
    {
      Shaped(TheRing())
    }

    constructor ()
      ensures Valid() && View() == Driver(false, Empty(), multiset{}) && fresh(own) && fresh(address)
    {
      own := new bool[DESCRIPTORS](i => false);
      address := new Option<Entry<P>>[DESCRIPTORS](i => None);
      cur, dma, release, inUse, accepted := 0, 0, 0, 0, 0;
      busy := false;
      refs := multiset{};
    }

    /** The DMA finishes up to k descriptors. */
    method DmaFinishes(k: nat)
      requires Valid()
      modifies this`dma, own
      ensures Valid() && View() == old(View()).(ring := Finished(old(TheRing()), k))
    {
      var left := k;
      while left > 0
        modifies this`dma, own
        invariant 0 <= left <= k && Valid()
        invariant View() == old(View()).(ring := TheRing())
        invariant Finished(TheRing(), left) == Finished(old(TheRing()), k)
      {
        ghost var before := TheRing();
        if own[dma] {
          own[dma] := false;
          dma := Incr(dma);
        }
        assert TheRing() == FinishedOne(before);
        left := left - 1;
      }
    }

    /** The error path of ETH_Prepare_Tx_Descriptors: the OWN bits of the first nbr descriptors are cleared again. */
    method ClearOwn(first: nat, nbr: nat, ghost before: seq<bool>)
      requires Valid() && first < DESCRIPTORS && nbr <= DESCRIPTORS && |before| == DESCRIPTORS
      requires forall j :: 0 <= j < DESCRIPTORS && Among(first, nbr, j) ==> !before[j]
      requires forall j :: 0 <= j < DESCRIPTORS && !Among(first, nbr, j) ==> own[j] == before[j]
      modifies own
      ensures own[..] == before
    {
      var i, idx := first, 0;
      while idx < nbr
        modifies own
        invariant 0 <= idx <= nbr && i == Plus(first, idx)
        invariant forall j :: 0 <= j < DESCRIPTORS && (!Among(first, nbr, j) || Among(first, idx, j)) ==> own[j] == before[j]
      {
        forall j | 0 <= j < DESCRIPTORS
          ensures Among(first, idx + 1, j) <==> Among(first, idx, j) || j == i
          ensures j == i ==> Steps(first, j) == idx
        {
          NextAmong(first, idx, j);
        }
        own[i] := false;
        IncrPlus(first, idx);
        i := Incr(i);
        idx := idx + 1;
      }
    }

    /** The OWN bits of the descriptors after the first are set for nbr buffers, which had room. */
    ghost predicate Preparing(was: Ring<P>, nbr: nat)
      requires Shaped(was)
      reads this, own, address
    {
      && Valid() && TheRing() == was.(own := own[..])
      && (forall j :: 0 <= j < DESCRIPTORS && Among(was.cur, nbr, j) ==> Free(was, j))
      && (forall j :: 0 <= j < DESCRIPTORS ==> own[j] == (was.own[j] || (Among(was.cur, nbr, j) && j != was.cur)))
    }

    method PrepareNext(ghost was: Ring<P>, nbr: nat, i: nat) returns (ok: bool)
      requires Shaped(was) && 1 <= nbr < DESCRIPTORS && i == Plus(was.cur, nbr) && Preparing(was, nbr)
      modifies own
      ensures ok == Free(was, i)
      ensures if ok then Preparing(was, nbr + 1) else TheRing() == was
    {
      forall j | 0 <= j < DESCRIPTORS
        ensures Among(was.cur, nbr + 1, j) <==> Among(was.cur, nbr, j) || j == i
        ensures i == j ==> !Among(was.cur, nbr, j)
      {
        NextAmong(was.cur, nbr, j);
      }
      if own[i] || address[i].Some? {
        ClearOwn(cur, nbr, was.own);
        return false;
      }
      own[i] := true;
      ok := true;
    }

    /** The last descriptor and the first one are completed. */
    method FinishPreparing(ghost was: Ring<P>, p: P, nbr: nat, i: nat)
      requires Shaped(was) && 1 <= nbr <= DESCRIPTORS && i == Plus(was.cur, nbr - 1) && Preparing(was, nbr)
      modifies this`cur, this`inUse, this`accepted, own, address
      ensures TheRing() == Taken(was, p, nbr).(cur := i)
    {
      own[cur] := true;
      assert Steps(was.cur, was.cur) == 0;
      OwnOfTaken(was, p, nbr, own[..]);
      address[i] := Some(Entry(p, accepted));
      accepted := accepted + 1;
      cur := i;
      inUse := WithWrap(inUse + nbr);
    }

    /**
     ETH_Prepare_Tx_Descriptors, for a list of n buffers. The OWN bits of the later descriptors are set one
     by one and taken back if there is not enough room; that of the first is set last.
     */
    method Prepare(buffers: seq<TxBuffer>, p: P, ghost n: nat) returns (ok: bool)
      requires Valid() && Links(buffers, n) && n <= DESCRIPTORS
      modifies this`cur, this`inUse, this`accepted, own, address
      ensures Valid() && ok == HasRoom(old(TheRing()), n)
      ensures busy == old(busy) && refs == old(refs)
      ensures TheRing() == if ok then Taken(old(TheRing()), p, n).(cur := LastOf(old(TheRing()), n)) else old(TheRing())
    {
      ghost var was := TheRing();
      var i: nat := cur;
      assert Steps(cur, cur) == 0;
      if own[i] || address[i].Some? {
        assert !Free(was, i);
        return false;
      }
      var b, nbr: nat := 0, 1;
      while buffers[b].next.Some?
        modifies own
        invariant 1 <= nbr <= n && b == nbr - 1 && i == Plus(was.cur, b) && Preparing(was, nbr)
        decreases n - nbr
      {
        IncrPlus(was.cur, b);
        i := Incr(i);
        var fits := PrepareNext(was, nbr, i);
        if !fits {
          assert Steps(was.cur, i) == nbr;
          return false;
        }
        b := buffers[b].next.value;
        nbr := nbr + 1;
      }
      FinishPreparing(was, p, nbr, i);
      ok := true;
    }

    /** HAL_ETH_Transmit_IT, of a driver that is started or not. */
    method Transmit(started: bool, buffers: seq<TxBuffer>, p: P, ghost n: nat) returns (ok: bool)
      requires Valid() && Links(buffers, n) && n <= DESCRIPTORS
      modifies this`cur, this`inUse, this`accepted, this`busy, own, address
      ensures Valid() && ok == (started && HasRoom(old(TheRing()), n)) && refs == old(refs)
      ensures TheRing() == if ok then Taken(old(TheRing()), p, n) else old(TheRing())
      ensures busy == (old(busy) || (started && !ok))
    {
      if started {
        ok := Prepare(buffers, p, n);
        if !ok {
          busy := true;
          return;
        }
        IncrPlus(old(cur), n - 1);
        cur := Incr(cur);
      } else {
        ok := false;
      }
    }

    /** What a release does at a descriptor whose packet the DMA has finished. */
    method FreePacket(i: nat, left: nat)
      requires Valid() && i < DESCRIPTORS && 0 < left <= inUse && address[i].Some?
      modifies this`release, this`inUse, this`refs, address
      ensures Valid() && TheRing() == FreedAt(old(TheRing()), i, left) && busy == old(busy)
      ensures refs == old(refs) - multiset{old(address[i]).value.packet}
    {
      refs := refs - multiset{address[i].value.packet};
      address[i] := None;
      inUse := left - 1;
      release := Incr(i);
    }

    /** The loop of a release is at descriptor i, with `left` descriptors to examine unless it has met an unfinished packet. */
    ghost predicate Releasing(i: nat, left: nat, more: bool, start: Driver<P>)
      requires Shaped(start.ring)
      reads this, own, address
    {
      && Valid() && left <= inUse && i < DESCRIPTORS && busy == start.busy
      && Released(start.ring) == (if more then ReleasedFrom(TheRing(), i, left) else TheRing())
      && Stored(address[..]) <= Stored(start.ring.address)
      && refs == start.refs - (Stored(start.ring.address) - Stored(address[..]))
    }

    /** One turn of the loop at a descriptor with a finished packet. */
    method FreeAndGoOn(i: nat, left: nat, ghost start: Driver<P>)
      requires Shaped(start.ring) && left > 0 && Releasing(i, left, true, start)
      requires address[i].Some? && !own[i]
      modifies this`release, this`inUse, this`refs, address
      ensures Releasing(Incr(i), left - 1, true, start)
    {
      ghost var was, p := TheRing(), address[i].value.packet;
      StoredOfFreed(was, i, left);
      FreePacket(i, left);
      DropOne(start.refs, Stored(start.ring.address), Stored(was.address), Stored(address[..]), p);
    }

    /** HAL_ETH_ReleaseTxPacket with its callback. */
    method ReleaseTxPacket()
      requires Valid()
      modifies this`release, this`inUse, this`refs, address
      ensures Valid() && View() == Freed(old(View()))
    {
      var left: nat, i: nat, transmitted := inUse, release, true;
      ghost var start := View();
      while left != 0 && transmitted
        modifies this`release, this`inUse, this`refs, address
        invariant Releasing(i, left, transmitted, start)
        decreases left, transmitted
      {
        if address[i].None? {
          i := Incr(i);
        } else if !own[i] {
          FreeAndGoOn(i, left, start);
          i := Incr(i);
        } else {
          transmitted := false;
        }
        left := left - 1;
      }
    }
  }
}
