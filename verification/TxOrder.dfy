/** The order in which packets are released. */
module TxOrder {
  import opened Basics
  import opened TxRing
  import opened TxSound

  /** The next release meets the held packets in the order of their acceptance. */
  ghost predicate OldestFirst<P>(r: Ring<P>)
    requires Shaped(r)
  {
    forall j, k :: Held(r, j) && Held(r, k) && Steps(r.release, j) < Steps(r.release, k) ==>
      r.address[j].value.number < r.address[k].value.number
  }

  /** Then nothing is freed while an older packet stays. */
  lemma OldestAreFreedFirst<P>(r: Ring<P>, j: nat, k: nat)
    requires Sound(r) && OldestFirst(r)
    requires Held(r, j) && !Held(Released(r), j) && Held(Released(r), k)
    ensures Held(r, k) && Released(r).address[k] == r.address[k]
    ensures r.address[j].value.number < r.address[k].value.number
  {
    StaysHeld(r, r.release, r.inUse, k);
    FreedInWalkOrder(r, r.release, r.inUse, j, k);
  }

  /** The walk has come from releaseIndex to descriptor i and has passed nothing that is held. */
  ghost predicate Passed<P>(r: Ring<P>, i: nat)
    requires Shaped(r) && i < DESCRIPTORS
  {
    forall j :: Held(r, j) ==> Steps(r.release, j) == Steps(r.release, i) + Steps(i, j)
  }

  lemma PassedNext<P>(r: Ring<P>, i: nat)
    requires Shaped(r) && i < DESCRIPTORS && Passed(r, i) && r.address[i].None?
    ensures Passed(r, Incr(i))
  {
    forall j | Held(r, j)
      ensures Steps(r.release, j) == Steps(r.release, Incr(i)) + Steps(Incr(i), j)
    {
      NextIsCloser(i, j);
    }
  }

  /** A step of the walk that frees a packet shifts the others alike. */
  lemma FreedKeepsOrder<P>(r: Ring<P>, i: nat, left: nat)
    requires Shaped(r) && i < DESCRIPTORS && 0 < left <= r.inUse && Passed(r, i) && OldestFirst(r)
    ensures OldestFirst(FreedAt(r, i, left)) && Passed(FreedAt(r, i, left), Incr(i))
  {
    var t := FreedAt(r, i, left);
    forall j | Held(t, j)
      ensures Held(r, j) && t.address[j] == r.address[j]
      ensures Steps(t.release, j) == Steps(r.release, j) - Steps(r.release, i) - 1
    {
      assert Held(r, j);
      NextIsCloser(i, j);
    }
  }

  lemma {:induction false} WalkKeepsOrder<P>(r: Ring<P>, i: nat, left: nat)
    requires Shaped(r) && i < DESCRIPTORS && left <= r.inUse && Passed(r, i) && OldestFirst(r)
    ensures OldestFirst(ReleasedFrom(r, i, left))
    decreases left
  {
    if left > 0 && r.address[i].None? {
      PassedNext(r, i);
      WalkKeepsOrder(r, Incr(i), left - 1);
    } else if left > 0 && !r.own[i] {
      FreedKeepsOrder(r, i, left);
      WalkKeepsOrder(FreedAt(r, i, left), Incr(i), left - 1);
    }
  }

  lemma ReleaseKeepsOrder<P>(r: Ring<P>)
    requires Shaped(r) && OldestFirst(r)
    ensures OldestFirst(Released(r))
  {
    WalkKeepsOrder(r, r.release, r.inUse);
  }

  /** The last descriptor of the next packet lies beyond all held packets, as seen from releaseIndex. */
  ghost predicate LastIsBeyond<P>(r: Ring<P>, n: nat)
    requires Shaped(r) && 1 <= n <= DESCRIPTORS
  {
    forall j :: Held(r, j) ==> Steps(r.release, j) < Steps(r.release, LastOf(r, n))
  }

  /** Accepting a packet keeps the order exactly if its last descriptor lies beyond all held packets. */
  lemma OrderIsKeptExactly<P>(r: Ring<P>, p: P, n: nat)
    requires Shaped(r) && Numbered(r) && OldestFirst(r) && 1 <= n <= DESCRIPTORS && HasRoom(r, n)
    ensures OldestFirst(Taken(r, p, n)) <==> LastIsBeyond(r, n)
  {
    var t, last := Taken(r, p, n), LastOf(r, n);
    assert Free(r, last) && Held(t, last) && t.address[last].value.number == r.accepted;
    assert forall j :: Held(t, j) <==> Held(r, j) || j == last;
    assert forall j :: Held(r, j) ==> t.address[j] == r.address[j];
    forall j | Held(r, j)
      ensures j != last && Steps(r.release, j) != Steps(r.release, last)
    {
    }
  }

  /** In particular while the descriptors in use and the new ones are no more than there are. */
  lemma FittingIsBeyond<P>(r: Ring<P>, n: nat)
    requires Sound(r) && 1 <= n <= DESCRIPTORS && r.inUse + n <= DESCRIPTORS
    ensures LastIsBeyond(r, n)
  {
    StepsWithin(r.release, r.cur, r.inUse, n);
  }
}
