/**
 Runs of the transmit ring. A release happens only after an offer was refused: because there is no room,
 or because the driver is stopped after an earlier refusal.
 */
module TxRuns {
  import opened Basics
  import opened TxRing
  import opened TxSound
  import opened TxOrder

  /**
   A packet of n buffers is accepted, the DMA finishes a descriptor, a packet of n buffers finds no room, or
   one finds the driver stopped with the busy bit set. `after` is how many descriptors the DMA finishes
   between the refusal and the release.
   */
  datatype Step<P> = Takes(packet: P, n: nat) | Finishes | Refused(n: nat, after: nat) | Stopped(after: nat)

  predicate Enabled<P>(r: Ring<P>, s: Step<P>)
    requires Shaped(r)
  {
    match s
    case Takes(_, n) => 1 <= n <= DESCRIPTORS && HasRoom(r, n)
    case Refused(n, _) => 1 <= n <= DESCRIPTORS && !HasRoom(r, n)
    case _ => true
  }

  function Next<P>(r: Ring<P>, s: Step<P>): (t: Ring<P>)
    requires Shaped(r) && Enabled(r, s)
    ensures Shaped(t)
  {
    match s
    case Takes(p, n) => Taken(r, p, n)
    case Finishes => FinishedOne(r)
    case Refused(_, after) => Released(Finished(r, after))
    case Stopped(after) => Released(Finished(r, after))
  }

  predicate Legal<P>(r: Ring<P>, run: seq<Step<P>>)
    requires Shaped(r)
    decreases |run|
  {
    run == [] || (Enabled(r, run[0]) && Legal(Next(r, run[0]), run[1..]))
  }

  function After<P>(r: Ring<P>, run: seq<Step<P>>): (t: Ring<P>)
    requires Shaped(r) && Legal(r, run)
    ensures Shaped(t)
    decreases |run|
  {
    if run == [] then r else After(Next(r, run[0]), run[1..])
  }

  /** How many buffers a run transmits. */
  function Buffers<P>(run: seq<Step<P>>): nat
    decreases |run|
  {
    if run == [] then 0 else (if run[0].Takes? then run[0].n else 0) + Buffers(run[1..])
  }

  // ------------------------------------------------------------------ what holds in every run

  lemma StepIsSound<P>(r: Ring<P>, s: Step<P>)
    requires Sound(r) && Enabled(r, s) && (s.Takes? ==> r.inUse + s.n < SPAN)
    ensures Sound(Next(r, s))
  {
    match s
    case Takes(p, n) => TakenIsSoundExactly(r, p, n);
    case Finishes => FinishedOneIsSound(r);
    case _ =>
      FinishedIsSound(r, s.after);
      ReleasedIsSound(Finished(r, s.after));
  }

  /** Over the first 2^32 - 1 buffers every ring is sound. */
  lemma {:induction false} SoundAlong<P>(r: Ring<P>, run: seq<Step<P>>)
    requires Sound(r) && Legal(r, run) && r.inUse + Buffers(run) < SPAN
    ensures Sound(After(r, run))
    decreases |run|
  {
    if run != [] {
      StepIsSound(r, run[0]);
      SoundAlong(Next(r, run[0]), run[1..]);
    }
  }

  /** Every packet is accepted while the descriptors in use and its own are no more than there are. */
  predicate Fitting<P>(r: Ring<P>, run: seq<Step<P>>)
    requires Shaped(r) && Legal(r, run)
    decreases |run|
  {
    run == [] || ((run[0].Takes? ==> r.inUse + run[0].n <= DESCRIPTORS) && Fitting(Next(r, run[0]), run[1..]))
  }

  /** Such runs keep the order of release, however long they are. */
  lemma {:induction false} FittingKeepsOrder<P>(r: Ring<P>, run: seq<Step<P>>)
    requires Sound(r) && OldestFirst(r) && Legal(r, run) && Fitting(r, run)
    ensures Sound(After(r, run)) && OldestFirst(After(r, run))
    decreases |run|
  {
    if run != [] {
      StepIsSound(r, run[0]);
      match run[0] {
        case Takes(p, n) =>
          FittingIsBeyond(r, n);
          OrderIsKeptExactly(r, p, n);
        case Finishes =>
          assert forall j :: Held(FinishedOne(r), j) <==> Held(r, j);
        case _ =>
          var t := Finished(r, run[0].after);
          assert forall j :: Held(t, j) <==> Held(r, j);
          ReleaseKeepsOrder(t);
      }
      FittingKeepsOrder(Next(r, run[0]), run[1..]);
    }
  }

  predicate OnlySingles<P>(run: seq<Step<P>>) {
    forall i :: 0 <= i < |run| ==> run[i].Takes? ==> run[i].n == 1
  }

  /** A packet is held at each descriptor in use, and nowhere else. */
  ghost predicate Packed<P>(r: Ring<P>) {
    && Shaped(r) && r.inUse <= DESCRIPTORS && Ahead(r, r.release, r.inUse)
    && (forall i :: 0 <= i < DESCRIPTORS && Steps(r.release, i) < r.inUse ==> Held(r, i))
  }

  lemma FreedIsPacked<P>(r: Ring<P>)
    requires Packed(r) && r.inUse > 0
    ensures Packed(FreedAt(r, r.release, r.inUse))
  {
    var t := FreedAt(r, r.release, r.inUse);
    AheadOfFreed(r, r.release, r.inUse);
    forall i | 0 <= i < DESCRIPTORS && Steps(t.release, i) < t.inUse
      ensures Held(t, i)
    {
      NextIsCloser(r.release, i);
      assert Held(r, i);
    }
  }

  lemma {:induction false} ReleasedIsPacked<P>(r: Ring<P>)
    requires Packed(r)
    ensures Packed(Released(r))
    decreases r.inUse
  {
    if r.inUse > 0 {
      assert Held(r, r.release);
      if !r.own[r.release] {
        FreedIsPacked(r);
        ReleasedIsPacked(FreedAt(r, r.release, r.inUse));
      }
    }
  }

  lemma TakenIsPacked<P>(r: Ring<P>, p: P)
    requires Packed(r) && HasRoom(r, 1)
    ensures r.inUse + 1 <= DESCRIPTORS && Packed(Taken(r, p, 1))
  {
    assert Steps(r.cur, r.cur) == 0;
    assert Free(r, r.cur);
    assert Steps(r.release, r.cur) >= r.inUse;
    var t := Taken(r, p, 1);
    TakenIsAhead(r, p, 1);
    assert LastOf(r, 1) == r.cur;
    forall i | 0 <= i < DESCRIPTORS && Steps(t.release, i) < t.inUse
      ensures Held(t, i)
    {
      assert i == r.cur || Held(r, i);
    }
  }

  /** A packet of one buffer is accepted only if it fits. */
  lemma {:induction false} SinglesFit<P>(r: Ring<P>, run: seq<Step<P>>)
    requires Packed(r) && Legal(r, run) && OnlySingles(run)
    ensures Fitting(r, run)
    decreases |run|
  {
    if run != [] {
      match run[0] {
        case Takes(p, n) => TakenIsPacked(r, p);
        case Finishes => assert forall j :: Held(FinishedOne(r), j) <==> Held(r, j);
        case _ =>
          var t := Finished(r, run[0].after);
          assert forall j :: Held(t, j) <==> Held(r, j);
          ReleasedIsPacked(t);
      }
      assert forall i :: 0 <= i < |run[1..]| ==> run[1..][i] == run[i + 1];
      SinglesFit(Next(r, run[0]), run[1..]);
    }
  }

  /** If every packet has one buffer, nothing is ever freed while an older packet stays. */
  lemma SinglesLeaveInOrder<P>(run: seq<Step<P>>, j: nat, k: nat)
    requires Legal(Empty<P>(), run) && OnlySingles(run)
    requires var r := After(Empty<P>(), run); Held(r, j) && !Held(Released(r), j) && Held(Released(r), k)
    ensures var r := After(Empty<P>(), run);
            Held(r, k) && r.address[j].value.number < r.address[k].value.number
  {
    var start: Ring<P> := Empty();
    var r := After(start, run);
    SinglesFit(start, run);
    FittingKeepsOrder(start, run);
    OldestAreFreedFirst(r, j, k);
  }

  // ------------------------------------------------------------------ runs that can happen

  predicate NeverStopped<P>(run: seq<Step<P>>) {
    forall i :: 0 <= i < |run| ==> !run[i].Stopped?
  }

  /** Some run of a driver that stays started leads here. */
  ghost predicate Reachable<P(!new)>(r: Ring<P>) {
    exists run :: NeverStopped(run) && Legal(Empty<P>(), run) && After(Empty(), run) == r
  }

  lemma RunOfOne<P>(r: Ring<P>, s: Step<P>)
    requires Shaped(r) && Enabled(r, s)
    ensures Legal(r, [s]) && After(r, [s]) == Next(r, s) && Buffers([s]) == if s.Takes? then s.n else 0
  {
    var t := Next(r, s);
    assert Legal(t, []) && After(t, []) == t;
    assert [s][1..] == [];
  }

  lemma FirstStep<P>(r: Ring<P>, s: Step<P>, run: seq<Step<P>>)
    requires Shaped(r) && Enabled(r, s) && Legal(Next(r, s), run)
    ensures Legal(r, [s] + run) && After(r, [s] + run) == After(Next(r, s), run)
  {
    assert ([s] + run)[1..] == run;
  }

  lemma {:induction false} BuffersJoin<P>(run: seq<Step<P>>, more: seq<Step<P>>)
    ensures Buffers(run + more) == Buffers(run) + Buffers(more)
    decreases |run|
  {
    if run == [] {
      assert run + more == more;
    } else {
      BuffersJoin(run[1..], more);
      assert (run + more)[1..] == run[1..] + more;
    }
  }

  lemma SplitFirst<P>(run: seq<Step<P>>, more: seq<Step<P>>)
    requires run != []
    ensures run + more == [run[0]] + (run[1..] + more)
  {
  }

  lemma {:induction false} RunsFollow<P>(r: Ring<P>, run: seq<Step<P>>, more: seq<Step<P>>)
    requires Shaped(r) && Legal(r, run) && Legal(After(r, run), more)
    ensures Legal(r, run + more) && After(r, run + more) == After(After(r, run), more)
    decreases |run|
  {
    if run == [] {
      assert run + more == more;
    } else {
      RunsFollow(Next(r, run[0]), run[1..], more);
      FirstStep(r, run[0], run[1..] + more);
      SplitFirst(run, more);
    }
  }

  /** One run after another. */
  lemma RunsJoin<P>(r: Ring<P>, run: seq<Step<P>>, more: seq<Step<P>>)
    requires Shaped(r) && Legal(r, run) && Legal(After(r, run), more)
    ensures Legal(r, run + more) && After(r, run + more) == After(After(r, run), more)
    ensures Buffers(run + more) == Buffers(run) + Buffers(more)
  {
    RunsFollow(r, run, more);
    BuffersJoin(run, more);
  }

  lemma EmptyIsReachable<P(!new)>()
    ensures Reachable(Empty<P>())
  {
    var run: seq<Step<P>> := [];
    assert NeverStopped(run) && Legal(Empty<P>(), run) && After(Empty<P>(), run) == Empty<P>();
  }

  lemma Onward<P(!new)>(r: Ring<P>, s: Step<P>) returns (t: Ring<P>)
    requires Shaped(r) && Reachable(r) && Enabled(r, s) && !s.Stopped?
    ensures t == Next(r, s) && Reachable(t)
  {
    t := Next(r, s);
    var run :| NeverStopped(run) && Legal(Empty<P>(), run) && After(Empty(), run) == r;
    RunOfOne(r, s);
    RunsJoin(Empty(), run, [s]);
    assert NeverStopped(run + [s]);
  }

  /** The DMA has the k descriptors from the one it is at on. */
  ghost predicate Owns<P>(r: Ring<P>, k: nat) {
    Shaped(r) && k <= DESCRIPTORS && forall i :: 0 <= i < DESCRIPTORS ==> (r.own[i] <==> Steps(r.dma, i) < k)
  }

  lemma FinishOwned<P>(r: Ring<P>, k: nat)
    requires Owns(r, k) && k > 0
    ensures FinishedOne(r) == r.(own := FinishedOne(r).own, dma := Incr(r.dma)) && Owns(FinishedOne(r), k - 1)
  {
    assert Steps(r.dma, r.dma) == 0;
    forall i | 0 <= i < DESCRIPTORS
      ensures i != r.dma ==> Steps(Incr(r.dma), i) == Steps(r.dma, i) - 1
      ensures Steps(Incr(r.dma), r.dma) == DESCRIPTORS - 1
    {
      NextIsCloser(r.dma, i);
    }
  }

  /** The DMA finishes m descriptors. */
  lemma {:induction false} FinishMany<P(!new)>(r: Ring<P>, k: nat, m: nat) returns (t: Ring<P>)
    requires Owns(r, k) && Reachable(r) && m <= k
    ensures Reachable(t) && Shaped(t) && t == r.(own := t.own, dma := Plus(r.dma, m)) && Owns(t, k - m)
    decreases m
  {
    t := r;
    if m > 0 {
      FinishOwned(r, k);
      t := Onward(r, Finishes);
      t := FinishMany(t, k - 1, m - 1);
    }
  }

  // Packets of 3, 2 and 1 buffers: the first descriptors of each are taken again by the next.

  lemma FirstTaken<P(!new)>(p: P) returns (r: Ring<P>)
    ensures r == Ring([false, true, true, false], [None, None, Some(Entry(p, 0)), None], 3, 1, 0, 3, 1)
    ensures Reachable(r)
  {
    EmptyIsReachable<P>();
    r := Onward(Empty(), Takes(p, 3));
    assert r == Ring([true, true, true, false], [None, None, Some(Entry(p, 0)), None], 3, 0, 0, 3, 1);
    r := Onward(r, Finishes);
  }

  lemma SecondTaken<P(!new)>(p: P, q: P) returns (r: Ring<P>)
    ensures r == Ring([true, false, true, true], [Some(Entry(q, 1)), None, Some(Entry(p, 0)), None], 1, 2, 0, 5, 2)
    ensures Reachable(r)
  {
    r := FirstTaken(p);
    r := Onward(r, Takes(q, 2));
    assert r == Ring([true, true, true, true], [Some(Entry(q, 1)), None, Some(Entry(p, 0)), None], 1, 1, 0, 5, 2);
    r := Onward(r, Finishes);
  }

  lemma ThirdTaken<P(!new)>(p: P, q: P, u: P) returns (r: Ring<P>)
    ensures r == Ring([true, true, true, true], [Some(Entry(q, 1)), Some(Entry(u, 2)), Some(Entry(p, 0)), None], 2, 2, 0, 6, 3)
    ensures Reachable(r)
  {
    r := SecondTaken(p, q);
    r := Onward(r, Takes(u, 1));
  }

  lemma ReleasesOnlySecond<P>(r: Ring<P>)
    requires Shaped(r) && r.release == 0 && r.inUse == 6 && r.own == [false, true, false, false]
    requires r.address[0].Some? && r.address[1].Some?
    ensures Released(r) == FreedAt(r, 0, 6)
  {
    var t := FreedAt(r, 0, 6);
    assert ReleasedFrom(t, 1, 5) == t;
  }

  /**
   When the DMA has finished the first two packets, the refusal of a fourth one frees the second packet and
   keeps the first.
   */
  lemma NewerCanLeaveFirst<P(!new)>(p: P, q: P, u: P) returns (r: Ring<P>)
    ensures Reachable(r) && Enabled(r, Refused(1, 0)) && r.own == [false, true, false, false]
    ensures r.address == [Some(Entry(q, 1)), Some(Entry(u, 2)), Some(Entry(p, 0)), None]
    ensures Released(r).address == r.address[0 := None]
  {
    r := ThirdTaken(p, q, u);
    r := FinishMany(r, 4, 3);
    assert r.own == [false, true, false, false];
    assert Steps(r.cur, 2) == 0 && !Free(r, 2);
    ReleasesOnlySecond(r);
  }

  // ------------------------------------------------------------------ BuffersInUse drifts

  /** The DMA has finished everything and nothing is held; the next release would start at descriptor 0. */
  ghost predicate Idle<P>(r: Ring<P>) {
    && Owns(r, 0) && r.dma == r.cur && r.release == 0
    && (forall i :: 0 <= i < DESCRIPTORS ==> !Held(r, i))
  }

  /** The DMA has the k descriptors from the one it is at on, and a packet is held at each of these only. */
  ghost predicate Loaded<P>(r: Ring<P>, k: nat) {
    && Owns(r, k) && r.cur == Plus(r.dma, k) && r.release == 0
    && (forall i :: 0 <= i < DESCRIPTORS ==> (Held(r, i) <==> Steps(r.dma, i) < k))
  }

  lemma HeldOfTaken<P>(r: Ring<P>, p: P, n: nat)
    requires Shaped(r) && 1 <= n <= DESCRIPTORS
    ensures forall i :: Held(Taken(r, p, n), i) <==> Held(r, i) || i == LastOf(r, n)
  {
  }

  /** A packet of four buffers takes all descriptors, and the DMA finishes three of them. */
  lemma TakeFour<P(!new)>(r: Ring<P>, p: P) returns (t: Ring<P>)
    requires Idle(r) && Reachable(r)
    ensures Reachable(t) && Loaded(t, 1) && t.inUse == WithWrap(r.inUse + 4)
  {
    forall i | 0 <= i < DESCRIPTORS
      ensures Free(r, i)
    {
      assert !Held(r, i);
    }
    var u := Onward(r, Takes(p, 4));
    HeldOfTaken(r, p, 4);
    Stretch(r.cur, 3, 1, 0);
    t := FinishMany(u, 4, 3);
    assert forall i :: 0 <= i < DESCRIPTORS ==> (Held(t, i) <==> Held(u, i));
    assert forall i :: 0 <= i < DESCRIPTORS ==> (i == t.dma <==> Steps(t.dma, i) < 1);
  }

  /** A packet of one buffer takes the descriptor after these. */
  lemma TakeOne<P(!new)>(r: Ring<P>, k: nat, p: P) returns (t: Ring<P>)
    requires Loaded(r, k) && k < DESCRIPTORS && Reachable(r)
    ensures Reachable(t) && Loaded(t, k + 1) && t.inUse == WithWrap(r.inUse + 1)
  {
    forall i | 0 <= i < DESCRIPTORS
      ensures Steps(r.dma, i) < k + 1 <==> Steps(r.dma, i) < k || Steps(r.cur, i) < 1
    {
      Stretch(r.dma, k, 1, i);
    }
    assert Plus(r.cur, 1) == Plus(r.dma, k + 1) by {
      Stretch(r.dma, k, 1, 0);
    }
    t := Onward(r, Takes(p, 1));
  }

  lemma {:induction false} WalkOverNothing<P>(r: Ring<P>, i: nat, left: nat)
    requires Shaped(r) && i < DESCRIPTORS && left <= r.inUse && forall j :: 0 <= j < DESCRIPTORS ==> !Held(r, j)
    ensures ReleasedFrom(r, i, left) == r
    decreases left
  {
    if left > 0 {
      assert !Held(r, i);
      WalkOverNothing(r, Incr(i), left - 1);
    }
  }

  /** The DMA has finished everything, and a packet is held at every descriptor. */
  ghost predicate Full<P>(r: Ring<P>) {
    Owns(r, 0) && r.dma == r.cur && r.release == 0 && forall i :: 0 <= i < DESCRIPTORS ==> Held(r, i)
  }

  /** A release of a full ring lowers the counter by four, although seven descriptors were used to fill it. */
  lemma FullIsReleased<P>(r: Ring<P>)
    requires Full(r) && 4 <= r.inUse
    ensures Idle(Released(r)) && Released(r).inUse == r.inUse - 4
  {
    var n := r.inUse;
    assert Held(r, 0) && Held(r, 1) && Held(r, 2) && Held(r, 3);
    assert !r.own[0] && !r.own[1] && !r.own[2] && !r.own[3];
    var t1 := FreedAt(r, 0, n);
    var t2 := FreedAt(t1, 1, n - 1);
    var t3 := FreedAt(t2, 2, n - 2);
    var t4 := FreedAt(t3, 3, n - 3);
    assert Released(r) == ReleasedFrom(t1, 1, n - 1) == ReleasedFrom(t2, 2, n - 2) == ReleasedFrom(t3, 3, n - 3);
    assert t4.address == [None, None, None, None];
    WalkOverNothing(t4, 0, n - 4);
    assert forall i :: 0 <= i < DESCRIPTORS ==> !Held(t4, i);
    assert Owns(t4, 0);
  }

  lemma FullRefuses<P>(r: Ring<P>)
    requires Full(r)
    ensures Enabled(r, Refused(4, 0))
  {
    assert Steps(r.cur, r.cur) == 0;
    assert Held(r, r.cur) && !Free(r, r.cur);
  }

  /** From an idle ring to a full one. */
  lemma Fill<P(!new)>(r: Ring<P>, p: P) returns (full: Ring<P>)
    requires Idle(r) && Reachable(r) && r.inUse + 7 <= SPAN
    ensures Reachable(full) && Full(full) && full.inUse == WithWrap(r.inUse + 7)
  {
    var t := TakeFour(r, p);
    t := TakeOne(t, 1, p);
    t := TakeOne(t, 2, p);
    t := TakeOne(t, 3, p);
    full := FinishMany(t, 4, 4);
    AllHeld(t, full);
  }

  lemma AllHeld<P>(r: Ring<P>, t: Ring<P>)
    requires Loaded(r, 4) && Owns(t, 0) && t.address == r.address && t.release == r.release && t.cur == t.dma
    ensures Full(t)
  {
    forall i | 0 <= i < DESCRIPTORS
      ensures Held(t, i)
    {
      assert Steps(r.dma, i) < 4;
      assert Held(r, i);
    }
  }

  lemma EmptyIsIdle<P>()
    ensures Idle(Empty<P>())
  {
    assert Steps(0, 0) == 0;
  }

  /** With nothing held and nothing to send, BuffersInUse can read every multiple of 3. */
  lemma {:induction false} CounterDrifts<P(!new)>(c: nat, p: P) returns (r: Ring<P>)
    requires 3 * c + 4 < SPAN
    ensures Reachable(r) && Idle(r) && r.inUse == 3 * c
    decreases c
  {
    if c == 0 {
      EmptyIsReachable<P>();
      EmptyIsIdle<P>();
      r := Empty();
    } else {
      r := CounterDrifts(c - 1, p);
      r := Fill(r, p);
      FullRefuses(r);
      FullIsReleased(r);
      r := Onward(r, Refused(4, 0));
    }
  }

  /** All descriptors hold packets that the DMA has finished, and the counter says that none is in use. */
  ghost predicate Dead<P>(r: Ring<P>) {
    Shaped(r) && r.inUse == 0 && forall i :: 0 <= i < DESCRIPTORS ==> Held(r, i) && !r.own[i]
  }

  lemma {:induction false} DeadIsFinished<P>(r: Ring<P>, k: nat)
    requires Dead(r)
    ensures Finished(r, k) == r
    decreases k
  {
    if k > 0 {
      assert Held(r, r.dma) && !r.own[r.dma];
      DeadIsFinished(r, k - 1);
    }
  }

  lemma DeadHasNoRoom<P>(r: Ring<P>, n: nat)
    requires Dead(r) && n >= 1
    ensures !HasRoom(r, n)
  {
    assert Steps(r.cur, r.cur) == 0;
    assert Held(r, r.cur) && !Free(r, r.cur);
  }

  /** No packet is accepted or freed any more. */
  lemma {:induction false} DeadForever<P>(r: Ring<P>, run: seq<Step<P>>)
    requires Dead(r) && Legal(r, run)
    ensures After(r, run) == r && Buffers(run) == 0
    decreases |run|
  {
    if run != [] {
      match run[0] {
        case Takes(_, n) => DeadHasNoRoom(r, n);
        case Finishes => DeadIsFinished(r, 1);
        case _ => DeadIsFinished(r, run[0].after);
      }
      DeadForever(r, run[1..]);
    }
  }

  lemma FullIsDead<P>(r: Ring<P>)
    requires Full(r) && r.inUse == 0
    ensures Dead(r)
  {
    assert forall i :: 0 <= i < DESCRIPTORS ==> Held(r, i) && Steps(r.dma, i) >= 0;
  }

  /** The counter comes round to 0 in the 1431655764th round, with all descriptors in use. */
  lemma TransmissionCanDie<P(!new)>(p: P) returns (r: Ring<P>)
    ensures Reachable(r) && Dead(r)
  {
    var s := CounterDrifts((SPAN - 7) / 3, p);
    r := Fill(s, p);
    FullIsDead(r);
  }
}
