/**
 What every ring of transmit descriptors keeps: the DMA's descriptors are consecutive, and everything held lies
 on the way of the next release. And what a release frees and leaves.
 */
module TxSound {
  import opened Basics
  import opened TxRing

  // ------------------------------------------------------------------ what every ring keeps

  function Owned<P>(r: Ring<P>): nat
    requires Shaped(r)
  {
    (if r.own[0] then 1 else 0) + (if r.own[1] then 1 else 0) + (if r.own[2] then 1 else 0) + (if r.own[3] then 1 else 0)
  }

  /** The DMA's descriptors are consecutive, from the one it is at up to the current one. */
  predicate InOrder<P>(r: Ring<P>)
    requires Shaped(r)
  {
    && Owned(r) <= DESCRIPTORS && r.cur == Plus(r.dma, Owned(r))
    && forall i :: 0 <= i < DESCRIPTORS ==> (r.own[i] <==> Steps(r.dma, i) < Owned(r))
  }

  predicate Held<P>(r: Ring<P>, i: int)
    requires Shaped(r)
  {
    0 <= i < DESCRIPTORS && r.address[i].Some?
  }

  /** The walk of a release is at descriptor i: what is still held lies within the `left` descriptors ahead. */
  ghost predicate Ahead<P>(r: Ring<P>, i: nat, left: nat)
    requires Shaped(r) && i < DESCRIPTORS
  {
    && (forall j :: Held(r, j) ==> Steps(i, j) < left)
    && Steps(i, r.cur) == left % DESCRIPTORS
  }

  /** Packets are numbered in the order of acceptance. */
  ghost predicate Numbered<P>(r: Ring<P>)
    requires Shaped(r)
  {
    forall i :: Held(r, i) ==> r.address[i].value.number < r.accepted
  }

  ghost predicate Sound<P>(r: Ring<P>) {
    Shaped(r) && InOrder(r) && Ahead(r, r.release, r.inUse) && Numbered(r)
  }

  lemma EmptyIsSound<P>()
    ensures Sound(Empty<P>())
  {
  }

  lemma RoomIsNotOwned<P>(r: Ring<P>, n: nat)
    requires Shaped(r) && InOrder(r) && n <= DESCRIPTORS && HasRoom(r, n)
    ensures Owned(r) + n <= DESCRIPTORS
  {
    assert Steps(r.cur, r.dma) >= n || Free(r, r.dma);
  }

  lemma OwnedOfTaken<P>(r: Ring<P>, p: P, n: nat)
    requires Shaped(r) && 1 <= n <= DESCRIPTORS && HasRoom(r, n)
    ensures Owned(Taken(r, p, n)) == Owned(r) + n
  {
  }

  /** Counting on from the end of a stretch continues it. */
  lemma Stretch(from: nat, o: nat, n: nat, i: nat)
    requires from < DESCRIPTORS && i < DESCRIPTORS && o + n <= DESCRIPTORS
    ensures Plus(Plus(from, o), n) == Plus(from, o + n)
    ensures Steps(from, i) < o + n <==> Steps(from, i) < o || Steps(Plus(from, o), i) < n
  {
  }

  lemma TakenIsInOrder<P>(r: Ring<P>, p: P, n: nat)
    requires Shaped(r) && InOrder(r) && 1 <= n <= DESCRIPTORS && HasRoom(r, n)
    ensures InOrder(Taken(r, p, n))
  {
    RoomIsNotOwned(r, n);
    OwnedOfTaken(r, p, n);
    forall i | 0 <= i < DESCRIPTORS
      ensures Steps(r.dma, i) < Owned(r) + n <==> Steps(r.dma, i) < Owned(r) || Steps(r.cur, i) < n
      ensures Plus(r.cur, n) == Plus(r.dma, Owned(r) + n)
    {
      Stretch(r.dma, Owned(r), n, i);
    }
    assert Plus(r.cur, n) == Plus(r.dma, Owned(r) + n) by {
      Stretch(r.dma, Owned(r), n, 0);
    }
  }

  /** Counting on from `left` descriptors on, modulo the number of descriptors. */
  lemma StepsFurther(i: nat, cur: nat, left: nat, n: nat)
    requires i < DESCRIPTORS && cur < DESCRIPTORS && 1 <= n <= DESCRIPTORS && Steps(i, cur) == left % DESCRIPTORS
    ensures Steps(i, Plus(cur, n)) == (left + n) % DESCRIPTORS
  {
  }

  lemma LastIsReached(i: nat, cur: nat, left: nat, n: nat)
    requires i < DESCRIPTORS && cur < DESCRIPTORS && 1 <= n <= DESCRIPTORS && left > 0
    requires Steps(i, Plus(cur, n)) == left % DESCRIPTORS
    ensures Steps(i, Plus(cur, n - 1)) < left
  {
  }

  /** Wrapping to a number keeps its residue, as the span is a multiple of the number of descriptors. */
  lemma WrapKeepsResidue(x: nat)
    requires x < 2 * SPAN
    ensures WithWrap(x) % DESCRIPTORS == x % DESCRIPTORS
  {
  }

  /** The counter does not wrap, or to a number beyond everything that is held. */
  ghost predicate CountsFar<P>(r: Ring<P>, n: nat)
    requires Shaped(r) && 1 <= n <= DESCRIPTORS
  {
    r.inUse + n < SPAN || (r.inUse + n > SPAN && forall j :: Held(r, j) ==> Steps(r.release, j) < r.inUse + n - SPAN)
  }

  lemma StepsWithin(i: nat, cur: nat, left: nat, n: nat)
    requires i < DESCRIPTORS && cur < DESCRIPTORS && Steps(i, cur) == left % DESCRIPTORS
    requires 1 <= n && left + n <= DESCRIPTORS
    ensures Steps(i, Plus(cur, n - 1)) == left + n - 1
  {
    assert left % DESCRIPTORS == left;
  }

  lemma TakenIsAhead<P>(r: Ring<P>, p: P, n: nat)
    requires Shaped(r) && Ahead(r, r.release, r.inUse) && 1 <= n <= DESCRIPTORS && CountsFar(r, n)
    ensures Ahead(Taken(r, p, n), r.release, WithWrap(r.inUse + n))
  {
    var t := Taken(r, p, n);
    var left := WithWrap(r.inUse + n);
    StepsFurther(r.release, r.cur, r.inUse, n);
    WrapKeepsResidue(r.inUse + n);
    LastIsReached(r.release, r.cur, left, n);
    forall j | Held(t, j)
      ensures Steps(r.release, j) < left
    {
      assert j == LastOf(r, n) || Held(r, j);
    }
  }

  lemma NotAheadOnceWrapped<P>(r: Ring<P>, p: P, n: nat)
    requires Shaped(r) && 1 <= n <= DESCRIPTORS && !CountsFar(r, n) && HasRoom(r, n)
    ensures !Ahead(Taken(r, p, n), r.release, WithWrap(r.inUse + n))
  {
    var t := Taken(r, p, n);
    assert Held(t, LastOf(r, n));
    if r.inUse + n > SPAN {
      var j :| Held(r, j) && Steps(r.release, j) >= r.inUse + n - SPAN;
      assert Held(t, j);
    }
  }

  lemma AheadExactly<P>(r: Ring<P>, p: P, n: nat)
    requires Shaped(r) && Ahead(r, r.release, r.inUse) && 1 <= n <= DESCRIPTORS && HasRoom(r, n)
    ensures Ahead(Taken(r, p, n), r.release, WithWrap(r.inUse + n)) <==> CountsFar(r, n)
  {
    if CountsFar(r, n) {
      TakenIsAhead(r, p, n);
    } else {
      NotAheadOnceWrapped(r, p, n);
    }
  }

  lemma TakenIsNumbered<P>(r: Ring<P>, p: P, n: nat)
    requires Shaped(r) && Numbered(r) && 1 <= n <= DESCRIPTORS
    ensures Numbered(Taken(r, p, n))
  {
    var t := Taken(r, p, n);
    forall j | Held(t, j)
      ensures t.address[j].value.number < t.accepted
    {
      assert j == LastOf(r, n) || Held(r, j);
    }
  }

  /** A ring stays sound by accepting a packet exactly if the counter still covers everything that is held. */
  lemma TakenIsSoundExactly<P>(r: Ring<P>, p: P, n: nat)
    requires Sound(r) && 1 <= n <= DESCRIPTORS && HasRoom(r, n)
    ensures Sound(Taken(r, p, n)) <==> CountsFar(r, n)
  {
    TakenIsInOrder(r, p, n);
    TakenIsNumbered(r, p, n);
    AheadExactly(r, p, n);
  }

  lemma FinishedIsInOrder<P>(r: Ring<P>)
    requires Shaped(r) && InOrder(r)
    ensures InOrder(FinishedOne(r))
    ensures Owned(FinishedOne(r)) == if Owned(r) == 0 then 0 else Owned(r) - 1
  {
  }

  lemma FinishedOneIsSound<P>(r: Ring<P>)
    requires Sound(r)
    ensures Sound(FinishedOne(r))
  {
    FinishedIsInOrder(r);
    assert forall j :: Held(FinishedOne(r), j) <==> Held(r, j);
  }

  lemma {:induction false} FinishedIsSound<P>(r: Ring<P>, k: nat)
    requires Sound(r)
    ensures Sound(Finished(r, k))
    ensures k >= Owned(r) ==> Owned(Finished(r, k)) == 0
    decreases k
  {
    if k > 0 {
      FinishedOneIsSound(r);
      FinishedIsInOrder(r);
      FinishedIsSound(FinishedOne(r), k - 1);
    }
  }

  // ------------------------------------------------------------------ the walk of a release

  lemma NextIsCloser(i: nat, j: nat)
    requires i < DESCRIPTORS && j < DESCRIPTORS
    ensures j != i ==> Steps(Incr(i), j) == Steps(i, j) - 1
    ensures Steps(Incr(i), i) == DESCRIPTORS - 1
  {
  }

  /** The walk goes on past a descriptor at which nothing is held. */
  lemma AheadOfNext<P>(r: Ring<P>, i: nat, left: nat)
    requires Shaped(r) && i < DESCRIPTORS && 0 < left <= r.inUse && Ahead(r, i, left) && r.address[i].None?
    ensures Ahead(r, Incr(i), left - 1)
  {
    forall j | 0 <= j < DESCRIPTORS
      ensures j != i ==> Steps(Incr(i), j) == Steps(i, j) - 1
      ensures Steps(Incr(i), i) == DESCRIPTORS - 1
    {
      NextIsCloser(i, j);
    }
  }

  lemma AheadOfFreed<P>(r: Ring<P>, i: nat, left: nat)
    requires Shaped(r) && i < DESCRIPTORS && 0 < left <= r.inUse && Ahead(r, i, left)
    ensures Ahead(FreedAt(r, i, left), Incr(i), left - 1)
  {
    var t := r.(address := r.address[i := None]);
    assert forall j :: Held(t, j) ==> Held(r, j);
    AheadOfNext(t, i, left);
    assert forall j :: Held(FreedAt(r, i, left), j) <==> Held(t, j);
  }

  /** What a release leaves is what was there, without some packets that the DMA has finished. */
  lemma {:induction false} OnlyFinishedAreFreed<P>(r: Ring<P>, i: nat, left: nat, j: nat)
    requires Shaped(r) && i < DESCRIPTORS && left <= r.inUse && j < DESCRIPTORS
    ensures var t := ReleasedFrom(r, i, left);
            t.address[j] == r.address[j] || (t.address[j].None? && !r.own[j])
    decreases left
  {
    if left > 0 && r.address[i].None? {
      OnlyFinishedAreFreed(r, Incr(i), left - 1, j);
    } else if left > 0 && !r.own[i] {
      OnlyFinishedAreFreed(FreedAt(r, i, left), Incr(i), left - 1, j);
    }
  }

  lemma ReleaseOnlyDrops<P>(r: Ring<P>)
    requires Shaped(r)
    ensures Stored(Released(r).address) <= Stored(r.address)
  {
    forall j | 0 <= j < DESCRIPTORS
      ensures Released(r).address[j] == r.address[j] || Released(r).address[j].None?
    {
      OnlyFinishedAreFreed(r, r.release, r.inUse, j);
    }
    StoredOfFewer(Released(r).address, r.address);
  }

  lemma StaysHeld<P>(r: Ring<P>, i: nat, left: nat, j: nat)
    requires Shaped(r) && i < DESCRIPTORS && left <= r.inUse && Held(ReleasedFrom(r, i, left), j)
    ensures Held(r, j) && ReleasedFrom(r, i, left).address[j] == r.address[j]
  {
    OnlyFinishedAreFreed(r, i, left, j);
  }

  lemma FreedIsGone<P>(r: Ring<P>, i: nat, left: nat)
    requires Shaped(r) && i < DESCRIPTORS && 0 < left <= r.inUse && r.address[i].Some? && !r.own[i]
    ensures ReleasedFrom(r, i, left) == ReleasedFrom(FreedAt(r, i, left), Incr(i), left - 1)
    ensures !Held(ReleasedFrom(r, i, left), i)
  {
    OnlyFinishedAreFreed(FreedAt(r, i, left), Incr(i), left - 1, i);
  }

  /** What is freed comes before what stays, on the way of the walk. */
  lemma {:induction false} FreedInWalkOrder<P>(r: Ring<P>, i: nat, left: nat, j: nat, k: nat)
    requires Shaped(r) && i < DESCRIPTORS && left <= r.inUse && Ahead(r, i, left)
    requires Held(r, j) && !Held(ReleasedFrom(r, i, left), j) && Held(ReleasedFrom(r, i, left), k)
    ensures Steps(i, j) < Steps(i, k)
    decreases left
  {
    StaysHeld(r, i, left, k);
    NextIsCloser(i, j);
    NextIsCloser(i, k);
    if left > 0 && r.address[i].None? {
      AheadOfNext(r, i, left);
      FreedInWalkOrder(r, Incr(i), left - 1, j, k);
    } else if left > 0 && !r.own[i] {
      FreedIsGone(r, i, left);
      AheadOfFreed(r, i, left);
      if j != i {
        FreedInWalkOrder(FreedAt(r, i, left), Incr(i), left - 1, j, k);
      }
    }
  }

  /** A packet stays only behind, or as, one that the DMA has not finished: nothing finished is overlooked. */
  lemma {:induction false} ReleaseIsThorough<P>(r: Ring<P>, i: nat, left: nat, k: nat) returns (j: nat)
    requires Shaped(r) && i < DESCRIPTORS && left <= r.inUse && Ahead(r, i, left) && Held(ReleasedFrom(r, i, left), k)
    ensures Held(ReleasedFrom(r, i, left), j) && r.own[j] && Steps(i, j) <= Steps(i, k)
    decreases left
  {
    StaysHeld(r, i, left, k);
    NextIsCloser(i, k);
    if left > 0 && r.address[i].None? {
      AheadOfNext(r, i, left);
      j := ReleaseIsThorough(r, Incr(i), left - 1, k);
      StaysHeld(r, i, left, j);
      NextIsCloser(i, j);
    } else if left > 0 && !r.own[i] {
      FreedIsGone(r, i, left);
      AheadOfFreed(r, i, left);
      j := ReleaseIsThorough(FreedAt(r, i, left), Incr(i), left - 1, k);
      NextIsCloser(i, j);
    } else {
      j := i;
    }
  }

  lemma {:induction false} ReleaseStaysAhead<P>(r: Ring<P>, i: nat, left: nat)
    requires Shaped(r) && i < DESCRIPTORS && left <= r.inUse
    requires Ahead(r, i, left) && Ahead(r, r.release, r.inUse)
    ensures var t := ReleasedFrom(r, i, left); Ahead(t, t.release, t.inUse)
    decreases left
  {
    if left > 0 && r.address[i].None? {
      AheadOfNext(r, i, left);
      ReleaseStaysAhead(r, Incr(i), left - 1);
    } else if left > 0 && !r.own[i] {
      AheadOfFreed(r, i, left);
      ReleaseStaysAhead(FreedAt(r, i, left), Incr(i), left - 1);
    }
  }

  lemma ReleasedIsSound<P>(r: Ring<P>)
    requires Sound(r)
    ensures Sound(Released(r))
  {
    var t := Released(r);
    ReleaseStaysAhead(r, r.release, r.inUse);
    assert Owned(t) == Owned(r);
    forall j | Held(t, j)
      ensures t.address[j].value.number < t.accepted
    {
      StaysHeld(r, r.release, r.inUse, j);
      assert Held(r, j);
    }
  }

  /** Once the DMA has caught up, a release frees everything, and any packet of up to four buffers fits. */
  lemma DrainMakesRoom<P>(r: Ring<P>, k: nat, n: nat)
    requires Sound(r) && k >= DESCRIPTORS
    ensures HasRoom(Released(Finished(r, k)), n)
  {
    FinishedIsSound(r, k);
    var s := Finished(r, k);
    var t := Released(s);
    forall i | 0 <= i < DESCRIPTORS
      ensures Free(t, i)
    {
      assert !s.own[i];
      if Held(t, i) {
        var j := ReleaseIsThorough(s, s.release, s.inUse, i);
        assert false;
      }
    }
  }
}
