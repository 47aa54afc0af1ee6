/**
 The three threads of the server as one step machine. A step is one access to shared state: one read or
 write of a flag, one lock or unlock, one operation on the ring under the mutex, one signal, one SQL
 statement. pthread_cond_wait releases the mutex and falls asleep in one step and may wake up for no
 reason; memory is sequentially consistent.
 */
module Pipeline {
  import opened Basics
  import Q = ResponseQueue
  import RT = ResultTable
  import Gen = CommandGenerator

  type Record = Q.Record
  type Command = Gen.Command

  datatype Owner = Nobody | Main | Rx | Writer

  /** Which way main went: all threads started, or the first one that could not be started. */
  datatype Path = AllStarted | RxFailed | WriterFailed

  datatype MainPc =
    | StartWriter | StartRx
    | TestApp | Sending(command: Command) | Inserting(command: Command)
    | StopRx | JoinRx
    | ShutLock | ShutSet | ShutSignal | ShutUnlock
    | ClearWriter | JoinWriter
    | Done

  datatype RxPc =
    | RxAbsent | RxTest | RxReceive
    | RxLock(record: Record) | RxPush(record: Record) | RxSignal | RxUnlock
    | RxExited

  datatype WriterPc =
    | WriterAbsent | WriterTest
    | WriterLock | WriterCheck | WriterAsleep | WriterWoken | WriterUnlock(popped: Option<Record>)
    | WriterUpdate(record: Record)
    | WriterExited

  /**
   `accepted`, `processed`, `log` and `lostUpdates` are histories: the records that push stored, the
   records the writer is done with, the SQL statements that ran, and the updates that SQLite refused.
   */
  datatype State = State(
    main: MainPc, path: Path, appRunning: bool, gen: Gen.State, built: nat,
    rx: RxPc, rxRunning: bool,
    writer: WriterPc, writerRunning: bool,
    owner: Owner, queue: Q.Fifo, table: RT.Table,
    accepted: seq<Record>, processed: seq<Record>, log: seq<RT.Event>, lostUpdates: nat)

  const INITIAL := State(
    StartWriter, AllStarted, true, Gen.INITIAL, 0,
    RxAbsent, false, WriterAbsent, false,
    Nobody, Q.Fifo([], false), map[], [], [], [], 0)

  /** Who moves next; the arguments are what the outside world decides. */
  datatype Action =
    | MainStarts(created: bool)
    | MainTests(built: Command, draws: nat)
    | MainSends(sent: bool)
    | MainInserts(sentTime: int, runs: bool)
    | MainGoesOn
    | RxReceives(record: Option<Record>)
    | RxGoesOn
    | WriterUpdates(runs: bool)
    | WriterGoesOn
    | SpuriousWakeUp
    | Sigint

  predicate Enabled(s: State, a: Action) {
    match a
    case MainStarts(_) => s.main.StartWriter? || s.main.StartRx?
    case MainTests(command, _) =>
      && s.main.TestApp?
      && (s.appRunning ==>
            && Gen.InRange(s.gen)
            && command.testId == s.gen.nextTestId
            && command.peripheral == Gen.PERIPHERALS[s.gen.peripheralIndex])
    case MainSends(_) => s.main.Sending?
    case MainInserts(_, _) => s.main.Inserting?
    case MainGoesOn =>
      (match s.main
       case StopRx | ShutSet | ShutSignal | ShutUnlock | ClearWriter => true
       case JoinRx => s.rx.RxExited?
       case ShutLock => s.owner.Nobody?
       case JoinWriter => s.writer.WriterExited?
       case _ => false)
    case RxReceives(_) => s.rx.RxReceive?
    case RxGoesOn =>
      (match s.rx
       case RxTest | RxPush(_) | RxSignal | RxUnlock => true
       case RxLock(_) => s.owner.Nobody?
       case _ => false)
    case WriterUpdates(_) => s.writer.WriterUpdate?
    case WriterGoesOn =>
      (match s.writer
       case WriterTest | WriterCheck | WriterUnlock(_) => true
       case WriterLock | WriterWoken => s.owner.Nobody?
       case _ => false)
    case SpuriousWakeUp => s.writer.WriterAsleep?
    case Sigint => true
  }

  /** pthread_cond_signal: the writer is the only thread that ever waits. */
  function Signalled(w: WriterPc): WriterPc {
    if w.WriterAsleep? then WriterWoken else w
  }

  function Next(s: State, a: Action): State
    requires Enabled(s, a)
  {
    match a
    case MainStarts(created) => MainStarted(s, created)
    case MainTests(command, draws) =>
      if s.appRunning then
        s.(main := Sending(command), built := s.built + 1,
           gen := Gen.State((s.gen.nextTestId + 1) % Gen.ID_SPAN, (s.gen.peripheralIndex + 1) % |Gen.PERIPHERALS|, draws))
      else
        s.(main := StopRx)
    case MainSends(sent) =>
      s.(main := if sent then Inserting(s.main.command) else TestApp)
    case MainInserts(sentTime, runs) =>
      var e := RT.Insert(s.main.command, sentTime);
      if runs then s.(main := TestApp, table := RT.Apply(s.table, e), log := s.log + [e])
      else s.(main := TestApp)
    case MainGoesOn => MainNext(s)
    case RxReceives(record) =>
      s.(rx := if record.Some? then RxLock(record.value) else RxTest)
    case RxGoesOn => RxNext(s)
    case WriterUpdates(runs) =>
      var r := s.writer.record;
      var t := s.(writer := WriterTest, processed := s.processed + [r]);
      var e := RT.Update(r);
      if runs then t.(table := RT.Apply(s.table, e), log := s.log + [e])
      else t.(lostUpdates := s.lostUpdates + 1)
    case WriterGoesOn => WriterNext(s)
    case SpuriousWakeUp => s.(writer := WriterWoken)
    case Sigint => s.(appRunning := false)
  }

  function MainStarted(s: State, created: bool): State
    requires s.main.StartWriter? || s.main.StartRx?
  {
    if s.main.StartWriter? then
      if created then s.(main := StartRx, writer := WriterTest, writerRunning := true)
      else s.(main := ShutLock, path := WriterFailed)
    else
      if created then s.(main := TestApp, rx := RxTest, rxRunning := true)
      else s.(main := ClearWriter, path := RxFailed)
  }

  function MainNext(s: State): State
    requires Enabled(s, MainGoesOn)
  {
    match s.main
    case StopRx => if s.rxRunning then s.(main := JoinRx, rxRunning := false) else s.(main := ShutLock)
    case JoinRx => s.(main := ShutLock)
    case ShutLock => s.(main := ShutSet, owner := Main)
    case ShutSet => s.(main := ShutSignal, queue := s.queue.(closed := true))
    case ShutSignal => s.(main := ShutUnlock, writer := Signalled(s.writer))
    case ShutUnlock => s.(main := if s.path.AllStarted? then ClearWriter else Done, owner := Nobody)
    case ClearWriter => s.(main := JoinWriter, writerRunning := false)
    case JoinWriter => s.(main := if s.path.AllStarted? then Done else ShutLock)
  }

  function RxNext(s: State): State
    requires Enabled(s, RxGoesOn)
  {
    match s.rx
    case RxTest => s.(rx := if s.rxRunning then RxReceive else RxExited)
    case RxLock(r) => s.(rx := RxPush(r), owner := Rx)
    case RxPush(r) =>
      if Q.Accepts(s.queue) then s.(rx := RxSignal, queue := Q.Pushed(s.queue, r), accepted := s.accepted + [r])
      else s.(rx := RxUnlock)
    case RxSignal => s.(rx := RxUnlock, writer := Signalled(s.writer))
    case RxUnlock => s.(rx := RxTest, owner := Nobody)
  }

  function WriterNext(s: State): State
    requires Enabled(s, WriterGoesOn)
  {
    match s.writer
    case WriterTest => s.(writer := if s.writerRunning then WriterLock else WriterExited)
    case WriterLock | WriterWoken => s.(writer := WriterCheck, owner := Writer)
    case WriterCheck =>
      (match Q.PopResult(s.queue)
       case MustWait => s.(writer := WriterAsleep, owner := Nobody)
       case Finished => s.(writer := WriterUnlock(None))
       case Popped(r) => s.(writer := WriterUnlock(Some(r)), queue := Q.AfterPop(s.queue)))
    case WriterUnlock(popped) =>
      s.(writer := if popped.Some? then WriterUpdate(popped.value) else WriterTest, owner := Nobody)
  }

  // ------------------------------------------------------------------ runs

  predicate Legal(s: State, run: seq<Action>)
    decreases |run|
  {
    run == [] || (Enabled(s, run[0]) && Legal(Next(s, run[0]), run[1..]))
  }

  function After(s: State, run: seq<Action>): State
    requires Legal(s, run)
    decreases |run|
  {
    if run == [] then s else After(Next(s, run[0]), run[1..])
  }

  ghost predicate Leads(s: State, t: State) {
    exists run :: Legal(s, run) && After(s, run) == t
  }

  ghost predicate Reachable(s: State) {
    Leads(INITIAL, s)
  }

  lemma LeadsNext(s: State, a: Action, t: State)
    requires Enabled(s, a) && Leads(Next(s, a), t)
    ensures Leads(s, t)
  {
    var run :| Legal(Next(s, a), run) && After(Next(s, a), run) == t;
    assert ([a] + run)[1..] == run;
    assert Legal(s, [a] + run) && After(s, [a] + run) == t;
  }

  lemma {:induction false} RunsConcat(s: State, first: seq<Action>, second: seq<Action>)
    requires Legal(s, first) && Legal(After(s, first), second)
    ensures Legal(s, first + second) && After(s, first + second) == After(After(s, first), second)
    decreases |first|
  {
    if first == [] {
      assert first + second == second;
    } else {
      RunsConcat(Next(s, first[0]), first[1..], second);
      assert (first + second)[1..] == first[1..] + second;
    }
  }

  lemma ReachableLeads(s: State, t: State)
    requires Reachable(s) && Leads(s, t)
    ensures Reachable(t)
  {
    var first :| Legal(INITIAL, first) && After(INITIAL, first) == s;
    var second :| Legal(s, second) && After(s, second) == t;
    RunsConcat(INITIAL, first, second);
  }

  /** One more step of a run. */
  lemma Onward(s: State, a: Action) returns (t: State)
    requires Reachable(s) && Enabled(s, a)
    ensures t == Next(s, a) && Reachable(t)
  {
    t := Next(s, a);
    assert Legal(t, []) && After(t, []) == t;
    LeadsNext(s, a, t);
    ReachableLeads(s, t);
  }

  lemma InitialIsReachable()
    ensures Reachable(INITIAL)
  {
    assert Legal(INITIAL, []) && After(INITIAL, []) == INITIAL;
  }
}
