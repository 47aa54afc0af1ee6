/**
 The twelve receive buffers and their exhaustion protocol as a step machine. The reader is the thread in
 ethernetif_input; the starter is the link thread inside HAL_ETH_Start_IT, which fills descriptors too, and
 HAL_ETH_Stop_IT; any number of threads may be freeing pbufs. While the driver is being started or stopped
 its state is busy, and HAL_ETH_ReadData fails. The machine has two forms: with `atomic`, the allocate
 callback finds the pool empty and writes the status in one step; without it, other threads can run in
 between.
 */
module RxPool {
  const BUFFERS := 12
  const DESCRIPTORS := 4

  datatype Reader =
    | Waiting                 // on the semaphore
    | Testing                 // about to read RxAllocStatus in low_level_input
    | Entering                // in HAL_ETH_ReadData, about to test the driver's state
    | Draining                // taking received buffers, before the descriptors are rebuilt
    | Building(ready: bool)   // rebuilding descriptors; ready: a whole packet will be returned
    | Failing(ready: bool)    // saw the pool empty, about to write the status

  datatype Starter =
    | Idle
    | Filling                 // in HAL_ETH_Start_IT, filling the descriptors
    | FillFailing             // saw the pool empty, about to write the status
    | Starting                // past the descriptors, the state still busy
    | Stopping                // in HAL_ETH_Stop_IT

  /** gState of the driver. */
  datatype Driver = Ready | Busy | Started | Failed

  /**
   The four places a buffer can be in, the protocol's shared variables, and how many freeing threads have
   returned their buffer and are about to test the status, about to reset it, about to signal. The last two
   are histories: since anybody last tried to fill the descriptors, the reader came for a good status and
   was sent back because the driver was not started; and since anybody last found the pool empty, a buffer
   was returned to it.
   */
  datatype State = State(
    pool: set<nat>, dma: set<nat>, assembly: set<nat>, stack: set<nat>,
    allocOk: bool, semaphore: bool, driver: Driver,
    reader: Reader, starter: Starter,
    testing: nat, resetting: nat, releasing: nat,
    turnedAway: bool, freedSince: bool)

  function AllBuffers(): set<nat> {
    {0, 1, 2, 3, 4, 5, 6, 7, 8, 9, 10, 11}
  }

  const INITIAL := State(AllBuffers(), {}, {}, {}, true, false, Ready, Waiting, Idle, 0, 0, 0, false, false)

  datatype Action =
    | RxInterrupt
    | BusError
    | ReaderWakes
    | ReaderTests
    | ReaderEnters
    | ReaderDrains(taken: set<nat>, complete: bool)
    | ReaderAllocates(buffer: nat)
    | ReaderFindsEmpty
    | ReaderWritesError
    | ReaderReturns
    | StarterBegins
    | StarterAllocates(buffer: nat)
    | StarterFindsEmpty
    | StarterWritesError
    | StarterEnds
    | StarterStarts
    | StarterStops
    | StarterHasStopped
    | FreerReturns(buffer: nat)
    | FreerTests
    | FreerResets
    | FreerReleases

  predicate Enabled(s: State, a: Action) {
    match a
    case RxInterrupt => true
    case BusError => true
    case ReaderWakes => s.reader.Waiting? && s.semaphore
    case ReaderTests => s.reader.Testing?
    case ReaderEnters => s.reader.Entering?
    case ReaderDrains(taken, complete) => s.reader.Draining? && taken <= s.dma && (complete ==> taken != {})
    case ReaderAllocates(b) => s.reader.Building? && |s.dma| < DESCRIPTORS && b in s.pool
    case ReaderFindsEmpty => s.reader.Building? && |s.dma| < DESCRIPTORS && s.pool == {}
    case ReaderWritesError => s.reader.Failing?
    case ReaderReturns => s.reader.Building? && |s.dma| >= DESCRIPTORS
    case StarterBegins => s.starter.Idle? && s.driver.Ready?
    case StarterAllocates(b) => s.starter.Filling? && |s.dma| < DESCRIPTORS && b in s.pool
    case StarterFindsEmpty => s.starter.Filling? && |s.dma| < DESCRIPTORS && s.pool == {}
    case StarterWritesError => s.starter.FillFailing?
    case StarterEnds => s.starter.Filling? && |s.dma| >= DESCRIPTORS
    case StarterStarts => s.starter.Starting?
    case StarterStops => s.starter.Idle? && s.driver.Started?
    case StarterHasStopped => s.starter.Stopping?
    case FreerReturns(b) => b in s.stack
    case FreerTests => s.testing > 0
    case FreerResets => s.resetting > 0
    case FreerReleases => s.releasing > 0
  }

  /** HAL_ETH_ReadData is over: a complete packet goes up to the stack and the reader comes back for more. */
  function Returned(s: State, ready: bool): State {
    if ready then s.(stack := s.stack + s.assembly, assembly := {}, reader := Testing)
    else s.(reader := Waiting)
  }

  /** The status becomes error: whoever was turned away before will be signalled again. */
  function WithError(s: State): State {
    s.(allocOk := false, turnedAway := false)
  }

  function Next(s: State, a: Action, atomic: bool): State
    requires Enabled(s, a)
  {
    match a
    case RxInterrupt => s.(semaphore := true)
    case BusError => s.(driver := Failed)
    case ReaderWakes => s.(semaphore := false, reader := Testing)
    case ReaderTests => s.(reader := if s.allocOk then Entering else Waiting)
    case ReaderEnters =>
      if s.driver.Started? then s.(reader := Draining, turnedAway := false)
      else s.(reader := Waiting, turnedAway := s.allocOk)
    case ReaderDrains(taken, complete) =>
      s.(dma := s.dma - taken, assembly := s.assembly + taken, reader := Building(complete))
    case ReaderAllocates(b) => s.(pool := s.pool - {b}, dma := s.dma + {b})
    case ReaderFindsEmpty =>
      var t := s.(freedSince := false);
      if atomic then Returned(WithError(t), s.reader.ready)
      else t.(reader := Failing(s.reader.ready))
    case ReaderWritesError => Returned(WithError(s), s.reader.ready)
    case ReaderReturns => Returned(s, s.reader.ready)
    case StarterBegins => s.(starter := Filling, driver := Busy, turnedAway := false)
    case StarterAllocates(b) => s.(pool := s.pool - {b}, dma := s.dma + {b})
    case StarterFindsEmpty =>
      var t := s.(freedSince := false);
      if atomic then WithError(t).(starter := Starting) else t.(starter := FillFailing)
    case StarterWritesError => WithError(s).(starter := Starting)
    case StarterEnds => s.(starter := Starting)
    case StarterStarts => s.(starter := Idle, driver := Started)
    case StarterStops => s.(starter := Stopping, driver := Busy)
    case StarterHasStopped => s.(starter := Idle, driver := Ready)
    case FreerReturns(b) =>
      s.(stack := s.stack - {b}, pool := s.pool + {b}, testing := s.testing + 1, freedSince := true)
    case FreerTests =>
      if s.allocOk then s.(testing := s.testing - 1)
      else s.(testing := s.testing - 1, resetting := s.resetting + 1)
    case FreerResets => s.(resetting := s.resetting - 1, allocOk := true, releasing := s.releasing + 1)
    case FreerReleases => s.(releasing := s.releasing - 1, semaphore := true)
  }

  predicate Legal(s: State, run: seq<Action>, atomic: bool)
    decreases |run|
  {
    run == [] || (Enabled(s, run[0]) && Legal(Next(s, run[0], atomic), run[1..], atomic))
  }

  function After(s: State, run: seq<Action>, atomic: bool): State
    requires Legal(s, run, atomic)
    decreases |run|
  {
    if run == [] then s else After(Next(s, run[0], atomic), run[1..], atomic)
  }

  ghost predicate Leads(s: State, t: State, atomic: bool) {
    exists run :: Legal(s, run, atomic) && After(s, run, atomic) == t
  }

  ghost predicate Reachable(s: State, atomic: bool) {
    Leads(INITIAL, s, atomic)
  }

  lemma LeadsNext(s: State, a: Action, t: State, atomic: bool)
    requires Enabled(s, a) && Leads(Next(s, a, atomic), t, atomic)
    ensures Leads(s, t, atomic)
  {
    var run :| Legal(Next(s, a, atomic), run, atomic) && After(Next(s, a, atomic), run, atomic) == t;
    assert ([a] + run)[1..] == run;
    assert Legal(s, [a] + run, atomic) && After(s, [a] + run, atomic) == t;
  }

  lemma LeadsNowhere(s: State, atomic: bool)
    ensures Leads(s, s, atomic)
  {
    assert Legal(s, [], atomic) && After(s, [], atomic) == s;
  }

  lemma {:induction false} RunsConcat(s: State, first: seq<Action>, second: seq<Action>, atomic: bool)
    requires Legal(s, first, atomic) && Legal(After(s, first, atomic), second, atomic)
    ensures Legal(s, first + second, atomic)
    ensures After(s, first + second, atomic) == After(After(s, first, atomic), second, atomic)
    decreases |first|
  {
    if first == [] {
      assert first + second == second;
    } else {
      RunsConcat(Next(s, first[0], atomic), first[1..], second, atomic);
      assert (first + second)[1..] == first[1..] + second;
    }
  }

  lemma ReachableLeads(s: State, t: State, atomic: bool)
    requires Reachable(s, atomic) && Leads(s, t, atomic)
    ensures Reachable(t, atomic)
  {
    var first :| Legal(INITIAL, first, atomic) && After(INITIAL, first, atomic) == s;
    var second :| Legal(s, second, atomic) && After(s, second, atomic) == t;
    RunsConcat(INITIAL, first, second, atomic);
  }

  /** One more step of a run. */
  lemma Onward(s: State, a: Action, atomic: bool) returns (t: State)
    requires Reachable(s, atomic) && Enabled(s, a)
    ensures t == Next(s, a, atomic) && Reachable(t, atomic)
  {
    t := Next(s, a, atomic);
    LeadsNowhere(t, atomic);
    LeadsNext(s, a, t, atomic);
    ReachableLeads(s, t, atomic);
  }
}
