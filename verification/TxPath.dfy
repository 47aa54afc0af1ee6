/**
 Transmitting: low_level_output lists the chain of a packet for the driver, takes a reference for it, and
 offers the packet to the driver until it is accepted or refused. After each offer that finds the driver
 busy, packets that the DMA has finished are released.
 */
module TxPath {
  import opened Basics
  import opened Pbufs
  import opened TxRing
  import opened TxSound
  import opened TxDriver
  import opened TxRuns

  const CLEARED := TxBuffer(0, 0, None)

  /** The first n entries list the chain one buffer each, linked in order, and the rest are cleared. */
  ghost predicate Mirrors(tx: seq<TxBuffer>, chain: seq<Pbuf>, n: nat)
    reads chain
  {
    && n <= |chain| && n <= |tx|
    && (forall i :: 0 <= i < n ==>
          tx[i] == TxBuffer(chain[i].payload, chain[i].len, if i + 1 < n then Some(i + 1) else None))
    && (forall i :: n <= i < |tx| ==> tx[i] == CLEARED)
  }

  /** The loop that fills Txbuffer: a chain that needs more descriptors than there are is refused. */
  method ListBuffers(p: Pbuf, end: Pbuf, ghost chain: seq<Pbuf>) returns (ok: bool, tx: array<TxBuffer>)
    requires Linked(p, end, chain) && chain != []
    ensures fresh(tx) && tx.Length == DESCRIPTORS
    ensures ok <==> |chain| <= DESCRIPTORS
    ensures ok ==> Mirrors(tx[..], chain, |chain|)
  {
    tx := new TxBuffer[DESCRIPTORS](i => CLEARED);
    var i := 0;
    var q: Pbuf? := p;
    while q != null
      invariant 0 <= i <= |chain| && Linked(p, end, chain)
      invariant q == if i < |chain| then chain[i] else null
      invariant i <= DESCRIPTORS && Mirrors(tx[..], chain, i)
      decreases |chain| - i
    {
      NextInChain(p, end, chain, i);
      if i >= DESCRIPTORS {
        return false, tx;
      }
      tx[i] := TxBuffer(q.payload, q.len, tx[i].next);
      if i > 0 {
        tx[i - 1] := tx[i - 1].(next := Some(i));
      }
      if q.next == null {
        tx[i] := tx[i].(next := None);
      }
      q := q.next;
      i := i + 1;
    }
    ok := true;
  }

  // ------------------------------------------------------------------ the retry loop

  /**
   One turn of the retry loop: whether the offer finds the driver started, and how many descriptors the DMA
   finishes before the offer, and after it until the release.
   */
  datatype Attempt = Attempt(started: bool, before: nat, after: nat)

  datatype Err = ErrOk | ErrIf

  /** The driver accepts an offer of n buffers if it is started and there is room. */
  predicate Accepts<P>(ring: Ring<P>, n: nat, a: Attempt)
    requires Shaped(ring)
  {
    a.started && HasRoom(Finished(ring, a.before), n)
  }

  /** What becomes of the ring in a turn that goes round again. */
  function Waited<P>(ring: Ring<P>, a: Attempt): (t: Ring<P>)
    requires Shaped(ring)
    ensures Shaped(t)
  {
    Released(Finished(Finished(ring, a.before), a.after))
  }

  /** One turn of the retry loop: accepted, refused for good, or to be tried again. */
  function Attempted<P>(d: Driver<P>, p: P, n: nat, a: Attempt): (r: (Driver<P>, Option<Err>))
    requires Shaped(d.ring) && 1 <= n <= DESCRIPTORS
    ensures Shaped(r.0.ring)
  {
    var ring := Finished(d.ring, a.before);
    if a.started && HasRoom(ring, n) then (d.(ring := Taken(ring, p, n)), Some(ErrOk))
    else if a.started || d.busy then (Freed(d.(busy := true, ring := Finished(ring, a.after))), None)
    else (d.(ring := ring, refs := d.refs - multiset{p}), Some(ErrIf))
  }

  /** The retry loop for packet p of n buffers over a given run of attempts; None while it is still retrying. */
  function Offer<P>(d: Driver<P>, p: P, n: nat, attempts: seq<Attempt>): (r: (Driver<P>, Option<Err>))
    requires Shaped(d.ring) && 1 <= n <= DESCRIPTORS
    ensures Shaped(r.0.ring)
    decreases |attempts|
  {
    if attempts == [] then (d, None)
    else
      var (d1, r) := Attempted(d, p, n, attempts[0]);
      if r.Some? then (d1, r) else Offer(d1, p, n, attempts[1..])
  }

  /** The references are those that others hold, one for each stored packet, and those in transit. */
  predicate Balanced<P>(d: Driver<P>, others: multiset<P>, transit: multiset<P>) {
    d.refs == others + Stored(d.ring.address) + transit
  }

  lemma Rebalance<P>(refs: multiset<P>, others: multiset<P>, all: multiset<P>, left: multiset<P>, transit: multiset<P>)
    requires refs == others + all + transit && left <= all
    ensures refs - (all - left) == others + left + transit
  {
    assert all == left + (all - left);
  }

  lemma ReleaseBalances<P>(d: Driver<P>, others: multiset<P>, transit: multiset<P>)
    requires Shaped(d.ring) && Balanced(d, others, transit)
    ensures Balanced(Freed(d), others, transit)
  {
    ReleaseOnlyDrops(d.ring);
    Rebalance(d.refs, others, Stored(d.ring.address), Stored(Released(d.ring).address), transit);
  }

  lemma AttemptBalances<P>(d: Driver<P>, p: P, n: nat, a: Attempt, others: multiset<P>)
    requires Shaped(d.ring) && 1 <= n <= DESCRIPTORS && Balanced(d, others, multiset{p})
    ensures var (d', r) := Attempted(d, p, n, a);
            Balanced(d', others, if r.None? then multiset{p} else multiset{})
  {
    var ring := Finished(d.ring, a.before);
    if a.started && HasRoom(ring, n) {
      StoredOfTaken(ring, p, n);
    } else if a.started || d.busy {
      ReleaseBalances(d.(busy := true, ring := Finished(ring, a.after)), others, multiset{p});
    }
  }

  /**
   Across any run of retries the driver's references are its stored packets: on success the new reference
   belongs to the packet now stored, on an error it is gone again, and meanwhile it is in transit.
   */
  lemma {:induction false} OfferBalances<P>(d: Driver<P>, p: P, n: nat, attempts: seq<Attempt>, others: multiset<P>)
    requires Shaped(d.ring) && 1 <= n <= DESCRIPTORS && Balanced(d, others, multiset{p})
    ensures var (d', r) := Offer(d, p, n, attempts);
            Balanced(d', others, if r.None? then multiset{p} else multiset{})
    decreases |attempts|
  {
    if attempts != [] {
      AttemptBalances(d, p, n, attempts[0], others);
      var (d1, r) := Attempted(d, p, n, attempts[0]);
      if r.None? {
        OfferBalances(d1, p, n, attempts[1..], others);
      }
    }
  }

  /** The interface error comes back exactly when the very first offer finds the driver stopped and the busy bit clear. */
  lemma {:induction false} ErrorOnlyAtOnce<P>(d: Driver<P>, p: P, n: nat, attempts: seq<Attempt>)
    requires Shaped(d.ring) && 1 <= n <= DESCRIPTORS
    ensures Offer(d, p, n, attempts).1 == Some(ErrIf) <==> attempts != [] && !d.busy && !attempts[0].started
    decreases |attempts|
  {
    if attempts != [] {
      var (d1, r) := Attempted(d, p, n, attempts[0]);
      if r.None? {
        ErrorOnlyAtOnce(d1, p, n, attempts[1..]);
      }
    }
  }

  /** The ring that attempt i finds, after i turns that went round again. */
  function RingAt<P>(ring: Ring<P>, attempts: seq<Attempt>, i: nat): (t: Ring<P>)
    requires Shaped(ring) && i <= |attempts|
    ensures Shaped(t)
    decreases i
  {
    if i == 0 then ring else RingAt(Waited(ring, attempts[0]), attempts[1..], i - 1)
  }

  ghost predicate NeverAccepted<P>(ring: Ring<P>, n: nat, attempts: seq<Attempt>)
    requires Shaped(ring)
  {
    forall i :: 0 <= i < |attempts| ==> !Accepts(RingAt(ring, attempts, i), n, attempts[i])
  }

  lemma NeverAcceptedOn<P>(ring: Ring<P>, n: nat, attempts: seq<Attempt>)
    requires Shaped(ring) && attempts != []
    ensures NeverAccepted(ring, n, attempts)
       <==> !Accepts(ring, n, attempts[0]) && NeverAccepted(Waited(ring, attempts[0]), n, attempts[1..])
  {
    var next, rest := Waited(ring, attempts[0]), attempts[1..];
    assert RingAt(ring, attempts, 0) == ring;
    assert forall i :: 0 < i < |attempts| ==> RingAt(ring, attempts, i) == RingAt(next, rest, i - 1) && attempts[i] == rest[i - 1];
    assert forall i :: 0 <= i < |rest| ==> RingAt(next, rest, i) == RingAt(ring, attempts, i + 1) && rest[i] == attempts[i + 1];
  }

  /** The call does not return exactly while no offer was accepted and the first one did not fail for good. */
  lemma {:induction false} RetriesExactlyWhile<P>(d: Driver<P>, p: P, n: nat, attempts: seq<Attempt>)
    requires Shaped(d.ring) && 1 <= n <= DESCRIPTORS
    ensures Offer(d, p, n, attempts).1 == None
       <==> NeverAccepted(d.ring, n, attempts) && (attempts == [] || d.busy || attempts[0].started)
    decreases |attempts|
  {
    if attempts != [] {
      NeverAcceptedOn(d.ring, n, attempts);
      var (d1, r) := Attempted(d, p, n, attempts[0]);
      if r.None? {
        RetriesExactlyWhile(d1, p, n, attempts[1..]);
      }
    }
  }

  /** So once the busy bit has been set, a driver that stays stopped keeps the caller retrying for ever. */
  lemma StoppedIsRetriedForever<P>(d: Driver<P>, p: P, n: nat, attempts: seq<Attempt>)
    requires Shaped(d.ring) && 1 <= n <= DESCRIPTORS && d.busy
    requires forall i :: 0 <= i < |attempts| ==> !attempts[i].started
    ensures Offer(d, p, n, attempts).1 == None
  {
    RetriesExactlyWhile(d, p, n, attempts);
  }

  // ------------------------------------------------------------------ when the call returns

  lemma {:induction false} RingAtIsSound<P>(ring: Ring<P>, attempts: seq<Attempt>, i: nat)
    requires Sound(ring) && i <= |attempts|
    ensures Sound(RingAt(ring, attempts, i))
    decreases i
  {
    if i > 0 {
      var r1 := Finished(ring, attempts[0].before);
      FinishedIsSound(ring, attempts[0].before);
      FinishedIsSound(r1, attempts[0].after);
      ReleasedIsSound(Finished(r1, attempts[0].after));
      RingAtIsSound(Waited(ring, attempts[0]), attempts[1..], i - 1);
    }
  }

  lemma {:induction false} RingAtNext<P>(ring: Ring<P>, attempts: seq<Attempt>, i: nat)
    requires Shaped(ring) && i < |attempts|
    ensures RingAt(ring, attempts, i + 1) == Waited(RingAt(ring, attempts, i), attempts[i])
    decreases i
  {
    if i > 0 {
      RingAtNext(Waited(ring, attempts[0]), attempts[1..], i - 1);
    } else {
      assert RingAt(Waited(ring, attempts[0]), attempts[1..], 0) == Waited(ring, attempts[0]);
    }
  }

  lemma FreeStaysRoom<P>(ring: Ring<P>, k: nat, n: nat)
    requires Shaped(ring) && HasRoom(ring, DESCRIPTORS)
    ensures HasRoom(Finished(ring, k), n)
    decreases k
  {
    assert Steps(ring.cur, ring.dma) < DESCRIPTORS && Free(ring, ring.dma);
    if k > 0 {
      assert FinishedOne(ring) == ring;
      FreeStaysRoom(ring, k - 1, n);
    }
  }

  /**
   On a sound ring, once the DMA has caught up before the release of one turn, the next offer that finds the
   driver started is the last: the call has returned.
   */
  lemma CaughtUpReturns<P>(d: Driver<P>, p: P, n: nat, attempts: seq<Attempt>, i: nat)
    requires Sound(d.ring) && 1 <= n <= DESCRIPTORS && i + 1 < |attempts|
    requires attempts[i].after >= DESCRIPTORS && attempts[i + 1].started
    ensures Offer(d, p, n, attempts).1.Some?
  {
    RetriesExactlyWhile(d, p, n, attempts);
    var r := RingAt(d.ring, attempts, i);
    RingAtIsSound(d.ring, attempts, i);
    RingAtNext(d.ring, attempts, i);
    FinishedIsSound(r, attempts[i].before);
    DrainMakesRoom(Finished(r, attempts[i].before), attempts[i].after, DESCRIPTORS);
    FreeStaysRoom(Waited(r, attempts[i]), attempts[i + 1].before, n);
    assert Accepts(RingAt(d.ring, attempts, i + 1), n, attempts[i + 1]);
  }

  lemma NothingDropped<P>(refs: multiset<P>, all: multiset<P>)
    ensures refs - (all - all) == refs
  {
  }

  lemma DeadAttempt<P>(d: Driver<P>, p: P, n: nat, a: Attempt)
    requires Dead(d.ring) && 1 <= n <= DESCRIPTORS && d.busy
    ensures Attempted(d, p, n, a) == (d, None)
  {
    DeadIsFinished(d.ring, a.before);
    DeadIsFinished(d.ring, a.after);
    DeadHasNoRoom(d.ring, n);
    assert Released(d.ring) == d.ring;
    NothingDropped(d.refs, Stored(d.ring.address));
    assert Freed(d) == d;
  }

  /** A dead ring accepts no offer, whatever the DMA and the driver do, and the call never returns. */
  lemma {:induction false} DeadIsRetriedForever<P>(d: Driver<P>, p: P, n: nat, attempts: seq<Attempt>)
    requires Dead(d.ring) && 1 <= n <= DESCRIPTORS && d.busy
    ensures Offer(d, p, n, attempts) == (d, None)
    decreases |attempts|
  {
    if attempts != [] {
      DeadAttempt(d, p, n, attempts[0]);
      DeadIsRetriedForever(d, p, n, attempts[1..]);
    }
  }

  // ------------------------------------------------------------------ offers are runs of the ring

  lemma {:induction false} FinishesRun<P>(r: Ring<P>, k: nat) returns (run: seq<Step<P>>)
    requires Shaped(r)
    ensures Legal(r, run) && After(r, run) == Finished(r, k) && Buffers(run) == 0
    ensures forall i :: 0 <= i < |run| ==> run[i].Finishes?
    decreases k
  {
    if k == 0 {
      run := [];
    } else {
      var rest := FinishesRun(FinishedOne(r), k - 1);
      run := [Finishes] + rest;
      assert run[1..] == rest;
    }
  }

  lemma AttemptIsRun<P>(d: Driver<P>, p: P, n: nat, a: Attempt) returns (run: seq<Step<P>>)
    requires Shaped(d.ring) && 1 <= n <= DESCRIPTORS
    ensures Legal(d.ring, run) && After(d.ring, run) == Attempted(d, p, n, a).0.ring
    ensures Buffers(run) == if Attempted(d, p, n, a).1 == Some(ErrOk) then n else 0
    ensures forall i :: 0 <= i < |run| ==> run[i].Takes? ==> run[i] == Takes(p, n)
  {
    run := FinishesRun(d.ring, a.before);
    var ring := Finished(d.ring, a.before);
    if a.started || d.busy {
      var s := if a.started && HasRoom(ring, n) then Takes(p, n) else if a.started then Refused(n, a.after) else Stopped(a.after);
      RunOfOne(ring, s);
      RunsJoin(d.ring, run, [s]);
      run := run + [s];
    }
  }

  /** What a call of low_level_output does to the ring is a run of it, which accepts the packet at most once. */
  lemma {:induction false} OfferIsRun<P>(d: Driver<P>, p: P, n: nat, attempts: seq<Attempt>) returns (run: seq<Step<P>>)
    requires Shaped(d.ring) && 1 <= n <= DESCRIPTORS
    ensures Legal(d.ring, run) && After(d.ring, run) == Offer(d, p, n, attempts).0.ring
    ensures Buffers(run) == if Offer(d, p, n, attempts).1 == Some(ErrOk) then n else 0
    ensures forall i :: 0 <= i < |run| ==> run[i].Takes? ==> run[i] == Takes(p, n)
    decreases |attempts|
  {
    run := [];
    if attempts != [] {
      var (d1, r) := Attempted(d, p, n, attempts[0]);
      run := AttemptIsRun(d, p, n, attempts[0]);
      if r.None? {
        var rest := OfferIsRun(d1, p, n, attempts[1..]);
        RunsJoin(d.ring, run, rest);
        run := run + rest;
      }
    }
  }

  /** Over the first 2^32 - 1 buffers every call leaves the ring sound. */
  lemma OfferIsSound<P>(d: Driver<P>, p: P, n: nat, attempts: seq<Attempt>)
    requires Sound(d.ring) && 1 <= n <= DESCRIPTORS && d.ring.inUse + n < SPAN
    ensures Sound(Offer(d, p, n, attempts).0.ring)
  {
    var run := OfferIsRun(d, p, n, attempts);
    SoundAlong(d.ring, run);
  }

  // ------------------------------------------------------------------ the interface

  /** What low_level_output hands to the driver: TxConfig with its Length, TxBuffer and pData. */
  datatype TxConfig = TxConfig(length: nat, buffers: seq<TxBuffer>, packet: Pbuf)

  /** Entry by entry: the payload, the length, and the index of the next entry; cleared entries after the last. */
  lemma MirrorsEntries(tx: seq<TxBuffer>, chain: seq<Pbuf>, i: nat)
    requires Mirrors(tx, chain, |chain|) && i < |tx|
    ensures i < |chain| ==> tx[i].buffer == chain[i].payload && tx[i].len == chain[i].len
    ensures i + 1 < |chain| ==> tx[i].next == Some(i + 1)
    ensures i + 1 == |chain| ==> tx[i].next == None
    ensures i >= |chain| ==> tx[i].buffer == 0 && tx[i].len == 0 && tx[i].next == None
  {
  }

  lemma MirrorsLinks(tx: seq<TxBuffer>, chain: seq<Pbuf>)
    requires chain != [] && Mirrors(tx, chain, |chain|)
    ensures Links(tx, |chain|)
  {
  }

  /**
   The network interface with its driver; `others` counts the references held outside the driver, and `sent`
   is the history of what the driver accepted.
   */
  class Netif {
    const heth: EthHandle<Pbuf>
    ghost var others: multiset<Pbuf>
    ghost var sent: seq<TxConfig>

    function View(): Driver<Pbuf>
      reads heth, heth.own, heth.address
    {
      heth.View()
    }

    ghost predicate Valid()
      reads this, heth, heth.own, heth.address
    {
      heth.Valid() && Balanced(View(), others, multiset{})
    }

    constructor ()
      ensures Valid() && View() == Driver(false, Empty(), multiset{}) && sent == []
    {
      heth := new EthHandle();
      others := multiset{};
      sent := [];
    }

    /** One turn of the do-while loop; None if it goes round again. */
    method TryOnce(config: TxConfig, a: Attempt, ghost n: nat) returns (r: Option<Err>)
      requires heth.Valid() && Links(config.buffers, n) && n <= DESCRIPTORS
      modifies this`sent, heth, heth.own, heth.address
      ensures heth.Valid() && (View(), r) == Attempted(old(View()), config.packet, n, a)
      ensures sent == if r == Some(ErrOk) then old(sent) + [config] else old(sent)
    {
      heth.DmaFinishes(a.before);
      var ok := heth.Transmit(a.started, config.buffers, config.packet, n);
      if ok {
        sent := sent + [config];
        return Some(ErrOk);
      }
      if heth.busy {
        heth.DmaFinishes(a.after);
        heth.ReleaseTxPacket();
        return None;
      }
      heth.refs := heth.refs - multiset{config.packet};
      r := Some(ErrIf);
    }

    /** The do-while loop, over a run of attempts; None while it is still retrying. */
    method Retry(config: TxConfig, attempts: seq<Attempt>, ghost n: nat) returns (r: Option<Err>)
      requires heth.Valid() && Links(config.buffers, n) && n <= DESCRIPTORS
      modifies this`sent, heth, heth.own, heth.address
      ensures heth.Valid() && (View(), r) == Offer(old(View()), config.packet, n, attempts)
      ensures sent == if r == Some(ErrOk) then old(sent) + [config] else old(sent)
    {
      r := None;
      var i := 0;
      while i < |attempts| && r.None?
        modifies this`sent, heth, heth.own, heth.address
        invariant 0 <= i <= |attempts| && heth.Valid()
        invariant sent == if r == Some(ErrOk) then old(sent) + [config] else old(sent)
        invariant Offer(old(View()), config.packet, n, attempts)
               == if r.Some? then (View(), r) else Offer(View(), config.packet, n, attempts[i..])
      {
        r := TryOnce(config, attempts[i], n);
        assert attempts[i..][1..] == attempts[i + 1..];
        i := i + 1;
      }
    }

    /** The part of low_level_output after the list is filled. */
    method OfferList(config: TxConfig, attempts: seq<Attempt>, ghost n: nat) returns (r: Option<Err>)
      requires Valid() && Links(config.buffers, n) && n <= DESCRIPTORS
      modifies this`sent, heth, heth.own, heth.address
      ensures heth.Valid()
      ensures (View(), r) == Offer(old(View()).(refs := old(heth.refs) + multiset{config.packet}), config.packet, n, attempts)
      ensures Balanced(View(), others, if r.None? then multiset{config.packet} else multiset{})
      ensures sent == if r == Some(ErrOk) then old(sent) + [config] else old(sent)
    {
      heth.refs := heth.refs + multiset{config.packet};
      OfferBalances(View(), config.packet, n, attempts, others);
      r := Retry(config, attempts, n);
    }

    /**
     low_level_output of the chain p to end. What the driver accepts is the packet with the list that mirrors
     its chain and with the chain's total length.
     */
    method LowLevelOutput(p: Pbuf, end: Pbuf, attempts: seq<Attempt>, ghost chain: seq<Pbuf>)
      returns (r: Option<Err>)
      requires Valid() && Linked(p, end, chain) && chain != []
      modifies this, heth, heth.own, heth.address
      ensures others == old(others) && heth.Valid()
      ensures |chain| > DESCRIPTORS ==> r == Some(ErrIf) && View() == old(View())
      ensures |chain| <= DESCRIPTORS ==>
                (View(), r) == Offer(old(View()).(refs := old(heth.refs) + multiset{p}), p, |chain|, attempts)
      ensures if r.None? then Balanced(View(), others, multiset{p}) else Valid()
      ensures r == Some(ErrOk) ==> |sent| == |old(sent)| + 1 && sent[..|old(sent)|] == old(sent)
      ensures r == Some(ErrOk) ==> sent[|old(sent)|].packet == p && sent[|old(sent)|].length == p.totLen
      ensures r == Some(ErrOk) ==> Mirrors(sent[|old(sent)|].buffers, chain, |chain|)
      ensures r != Some(ErrOk) ==> sent == old(sent)
    {
      var fits, tx := ListBuffers(p, end, chain);
      if !fits {
        return Some(ErrIf);
      }
      var config := TxConfig(p.totLen, tx[..], p);
      MirrorsLinks(config.buffers, chain);
      r := OfferList(config, attempts, |chain|);
    }
  }
}
