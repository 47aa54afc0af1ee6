/**
 What the final table of a run means: it is the replay of the statements that ran, and over the first
 2^32 commands no insert is ever rejected, so each test that was inserted has a row of its own.
 */
module PipelineTable {
  import opened Arithmetic
  import opened Basics
  import opened Pipeline
  import opened Subsequences
  import RT = ResultTable
  import Gen = CommandGenerator

  /** Zero is the last id of a cycle, not the first. */
  function Serial(id: nat): nat {
    if id == 0 then Gen.ID_SPAN else id
  }

  predicate AwaitsRow(pc: MainPc) {
    pc.Sending? || pc.Inserting?
  }

  /** The generator counts the commands, and the command on its way carries the number of the last one. */
  predicate Numbered(s: State) {
    && s.gen.nextTestId == (s.built + 1) % Gen.ID_SPAN
    && s.gen.peripheralIndex == s.built % |Gen.PERIPHERALS|
    && (AwaitsRow(s.main) ==> s.built > 0 && s.main.command.testId == s.built % Gen.ID_SPAN)
  }

  predicate InsertsUpTo(log: seq<RT.Event>, bound: int) {
    forall i :: 0 <= i < |log| && log[i].Insert? ==> Serial(log[i].command.testId) <= bound
  }

  predicate InsertsAscend(log: seq<RT.Event>) {
    forall i, j :: 0 <= i < j < |log| && log[i].Insert? && log[j].Insert?
                   ==> Serial(log[i].command.testId) < Serial(log[j].command.testId)
  }

  predicate Ascending(s: State) {
    s.built <= Gen.ID_SPAN ==>
      && InsertsAscend(s.log)
      && InsertsUpTo(s.log, if AwaitsRow(s.main) then s.built - 1 else s.built)
  }

  /** The responses in a log, in order. */
  function Responses(log: seq<RT.Event>): seq<Record> {
    if log == [] then []
    else
      var n := |log| - 1;
      Responses(log[..n]) + if log[n].Update? then [log[n].record] else []
  }

  predicate Recorded(s: State) {
    && s.table == RT.Replay(s.log)
    && Subsequence(Responses(s.log), s.processed)
    && |Responses(s.log)| + s.lostUpdates == |s.processed|
    && (s.lostUpdates == 0 ==> Responses(s.log) == s.processed)
  }

  predicate TableInvariant(s: State) {
    Numbered(s) && Ascending(s) && Recorded(s)
  }

  lemma NumberedBuilds(s: State, a: Action)
    requires Numbered(s) && Enabled(s, a) && a.MainTests?
    ensures Numbered(Next(s, a))
  {
    if s.appRunning {
      SuccessorResidue(s.built + 1, Gen.ID_SPAN);
      SuccessorResidue(s.built, |Gen.PERIPHERALS|);
    }
  }

  lemma NumberedSends(s: State, a: Action)
    requires Numbered(s) && Enabled(s, a) && (a.MainStarts? || a.MainSends? || a.MainInserts?)
    ensures Numbered(Next(s, a))
  {
  }

  lemma NumberedElsewhere(s: State, a: Action)
    requires Numbered(s) && Enabled(s, a)
    requires !a.MainTests? && !a.MainStarts? && !a.MainSends? && !a.MainInserts?
    ensures Numbered(Next(s, a))
  {
    match a
    case MainGoesOn => assert !AwaitsRow(MainNext(s).main) && MainNext(s).gen == s.gen && MainNext(s).built == s.built;
    case RxGoesOn => assert RxNext(s).main == s.main && RxNext(s).gen == s.gen && RxNext(s).built == s.built;
    case WriterGoesOn => assert WriterNext(s).main == s.main && WriterNext(s).gen == s.gen && WriterNext(s).built == s.built;
    case _ =>
  }

  lemma NumberedKept(s: State, a: Action)
    requires Numbered(s) && Enabled(s, a)
    ensures Numbered(Next(s, a))
  {
    match a
    case MainTests(_, _) => NumberedBuilds(s, a);
    case MainStarts(_) | MainSends(_) | MainInserts(_, _) => NumberedSends(s, a);
    case _ => NumberedElsewhere(s, a);
  }

  lemma SerialOfCommand(built: nat)
    requires 0 < built <= Gen.ID_SPAN
    ensures Serial(built % Gen.ID_SPAN) == built
  {
  }

  lemma AscendingAppend(log: seq<RT.Event>, e: RT.Event, bound: int)
    requires InsertsAscend(log) && InsertsUpTo(log, if e.Insert? then bound - 1 else bound)
    requires e.Insert? ==> Serial(e.command.testId) == bound
    ensures InsertsAscend(log + [e]) && InsertsUpTo(log + [e], bound)
  {
  }

  /** No step but a build, a send or an insert changes how many commands were built or whether one awaits its row. */
  lemma BuiltUntouched(s: State, a: Action)
    requires Enabled(s, a) && !a.MainTests? && !a.MainSends? && !a.MainInserts?
    ensures Next(s, a).built == s.built && AwaitsRow(Next(s, a).main) == AwaitsRow(s.main)
  {
    match a
    case MainGoesOn => assert !AwaitsRow(MainNext(s).main);
    case RxGoesOn => assert RxNext(s).main == s.main;
    case WriterGoesOn => assert WriterNext(s).main == s.main;
    case _ =>
  }

  lemma AscendingBuilds(s: State, a: Action)
    requires Numbered(s) && Ascending(s) && Enabled(s, a) && (a.MainTests? || a.MainSends?)
    ensures Ascending(Next(s, a))
  {
  }

  lemma AscendingInserts(s: State, a: Action)
    requires Numbered(s) && Ascending(s) && Enabled(s, a) && a.MainInserts?
    ensures Ascending(Next(s, a))
  {
    if s.built <= Gen.ID_SPAN {
      SerialOfCommand(s.built);
      AscendingAppend(s.log, RT.Insert(s.main.command, a.sentTime), s.built);
    }
  }

  lemma AscendingUpdates(s: State, a: Action)
    requires Numbered(s) && Ascending(s) && Enabled(s, a) && a.WriterUpdates?
    ensures Ascending(Next(s, a))
  {
    if s.built <= Gen.ID_SPAN {
      var bound := if AwaitsRow(s.main) then s.built - 1 else s.built;
      AscendingAppend(s.log, RT.Update(s.writer.record), bound);
    }
  }

  lemma AscendingKept(s: State, a: Action)
    requires Numbered(s) && Ascending(s) && Enabled(s, a)
    ensures Ascending(Next(s, a))
  {
    match a
    case MainTests(_, _) | MainSends(_) => AscendingBuilds(s, a);
    case MainInserts(_, _) => AscendingInserts(s, a);
    case WriterUpdates(_) => AscendingUpdates(s, a);
    case _ =>
      TableUntouched(s, a);
      BuiltUntouched(s, a);
  }

  lemma ResponsesSnoc(log: seq<RT.Event>, e: RT.Event)
    ensures e.Update? ==> Responses(log + [e]) == Responses(log) + [e.record]
    ensures e.Insert? ==> Responses(log + [e]) == Responses(log)
  {
    assert (log + [e])[..|log|] == log;
  }

  predicate SameTable(s: State, t: State) {
    t.table == s.table && t.log == s.log && t.processed == s.processed && t.lostUpdates == s.lostUpdates
  }

  /** No step but an insert or an update touches the table, the log, or what is processed. */
  lemma TableUntouched(s: State, a: Action)
    requires Enabled(s, a) && !a.MainInserts? && !a.WriterUpdates?
    ensures SameTable(s, Next(s, a))
  {
    match a
    case MainGoesOn => assert SameTable(s, MainNext(s));
    case RxGoesOn => assert SameTable(s, RxNext(s));
    case WriterGoesOn => assert SameTable(s, WriterNext(s));
    case _ =>
  }

  lemma RecordedKept(s: State, a: Action)
    requires Recorded(s) && Enabled(s, a)
    ensures Recorded(Next(s, a))
  {
    match a
    case MainInserts(sentTime, runs) =>
      var e := RT.Insert(s.main.command, sentTime);
      RT.ReplaySnoc(s.log, e);
      ResponsesSnoc(s.log, e);
    case WriterUpdates(runs) =>
      var e := RT.Update(s.writer.record);
      RT.ReplaySnoc(s.log, e);
      ResponsesSnoc(s.log, e);
      SubsequenceSnoc(Responses(s.log), s.processed, s.writer.record);
    case _ =>
      TableUntouched(s, a);
  }

  lemma {:induction false} TableInvariantAlong(s: State, run: seq<Action>)
    requires TableInvariant(s) && Legal(s, run)
    ensures TableInvariant(After(s, run))
    decreases |run|
  {
    if run != [] {
      NumberedKept(s, run[0]);
      AscendingKept(s, run[0]);
      RecordedKept(s, run[0]);
      TableInvariantAlong(Next(s, run[0]), run[1..]);
    }
  }

  lemma ReachableTable(s: State)
    requires Reachable(s)
    ensures TableInvariant(s)
  {
    var run :| Legal(INITIAL, run) && After(INITIAL, run) == s;
    TableInvariantAlong(INITIAL, run);
  }

  /** The machine's build step allows every command that the generator can build, and moves it on as the generator does. */
  lemma GeneratorStepsAreAllowed(s: State, command: Command, rand: nat -> nat)
    requires s.main.TestApp? && s.appRunning && Gen.InRange(s.gen) && Gen.IsNextCommand(command, s.gen, rand)
    ensures var a := MainTests(command, Gen.Advanced(s.gen, rand).draws);
            Enabled(s, a) && Next(s, a).gen == Gen.Advanced(s.gen, rand) && Next(s, a).main == Sending(command)
  {
  }

  // ------------------------------------------------------------------ the theorems

  /**
   The table is the replay of the log, and the log's responses are the processed ones, in order, without as
   many as SQLite refused.
   */
  lemma TableIsReplay(s: State)
    requires Reachable(s)
    ensures s.table == RT.Replay(s.log)
    ensures Subsequence(Responses(s.log), s.processed)
    ensures |Responses(s.log)| + s.lostUpdates == |s.processed|
    ensures s.lostUpdates == 0 ==> Responses(s.log) == s.processed
  {
    ReachableTable(s);
  }

  /** Up to 2^32 commands the unique key rejects no insert of any interleaving. */
  lemma NoInsertIsRejected(s: State)
    requires Reachable(s) && s.built <= Gen.ID_SPAN
    ensures RT.DistinctInserts(s.log)
    ensures forall k :: 0 <= k < |s.log| && s.log[k].Insert?
                        ==> s.log[k].command.testId !in RT.Replay(s.log[..k])
  {
    ReachableTable(s);
    forall k | 0 <= k < |s.log| && s.log[k].Insert?
      ensures s.log[k].command.testId !in RT.Replay(s.log[..k])
    {
      RT.InsertIsNotRejected(s.log, k);
    }
  }

  /**
   Each test inserted in a run has a row that shows its own command, and the row is PENDING exactly when
   no response with its id was written after the insert.
   */
  lemma StatusOfTest(s: State, k: nat)
    requires Reachable(s) && s.built <= Gen.ID_SPAN
    requires k < |s.log| && s.log[k].Insert?
    ensures var id := s.log[k].command.testId;
            && id in s.table
            && s.table[id].peripheral == s.log[k].command.peripheral
            && (s.table[id].status == RT.Pending <==> RT.Unanswered(s.log, id, k))
            && (s.table[id].status == RT.Passed <==> RT.AnsweredWith(s.log, id, k, true))
            && (s.table[id].status == RT.Failed <==> RT.AnsweredWith(s.log, id, k, false))
  {
    NoInsertIsRejected(s);
    ReachableTable(s);
    RT.InsertIsNotRejected(s.log, k);
    RT.RowOfFirstInsert(s.log, s.log[k].command.testId, k);
    RT.StatusExactly(s.log, s.log[k].command.testId, k);
  }

  /** Once answered, the row shows the last response with its id that was written after the insert. */
  lemma AnswerOfTest(s: State, k: nat, j: nat)
    requires Reachable(s) && s.built <= Gen.ID_SPAN
    requires k < j && k < |s.log| && s.log[k].Insert?
    requires RT.LastUpdate(s.log, s.log[k].command.testId, j)
    ensures var id := s.log[k].command.testId;
            && id in s.table
            && var row, c, r := s.table[id], s.log[k].command, s.log[j].record;
            && row.peripheral == c.peripheral && row.iterations == c.iterations
            && row.payloadLen == c.patternLen && row.sentTime == s.log[k].sentTime
            && row.answer == Some(RT.Answer(r.receivedTime, r.result))
            && row.status == if r.result == 1 then RT.Passed else RT.Failed
  {
    NoInsertIsRejected(s);
    ReachableTable(s);
    RT.InsertIsNotRejected(s.log, k);
    RT.RowOfLastUpdate(s.log, s.log[k].command.testId, k, j);
  }

  /** The places in a log where a test was inserted whose row has the given status at the end. */
  ghost function TestsThatEnd(log: seq<RT.Event>, status: RT.Status): (places: set<nat>)
    ensures forall k :: k in places ==> k < |log| && log[k].Insert?
  {
    set k: nat | k < |log| && EndsAs(log, k, status)
  }

  /** By the responses alone: none after the insert, or a last one with the result 1 or another. */
  ghost predicate EndsAs(log: seq<RT.Event>, k: nat, status: RT.Status)
    requires k < |log|
  {
    && log[k].Insert?
    && match status
       case Pending => RT.Unanswered(log, log[k].command.testId, k)
       case Passed => RT.AnsweredWith(log, log[k].command.testId, k, true)
       case Failed => RT.AnsweredWith(log, log[k].command.testId, k, false)
  }

  /** A set of ids that are carried by as many places in the log has as many elements. */
  lemma {:induction false} AsManyIdsAsPlaces(log: seq<RT.Event>, places: set<nat>, ids: set<nat>)
    requires RT.DistinctInserts(log)
    requires forall k :: k in places ==> k < |log| && log[k].Insert? && log[k].command.testId in ids
    requires forall id :: id in ids ==> exists k :: k in places && k < |log| && RT.Inserts(log[k], id)
    ensures |places| == |ids|
    decreases places
  {
    if places == {} {
      assert ids == {};
    } else {
      var k :| k in places;
      var id := log[k].command.testId;
      forall i | i in ids - {id}
        ensures exists p :: p in places - {k} && p < |log| && RT.Inserts(log[p], i)
      {
        var p :| p in places && p < |log| && RT.Inserts(log[p], i);
        assert p in places - {k};
      }
      AsManyIdsAsPlaces(log, places - {k}, ids - {id});
    }
  }

  /** As many rows have a status as tests were inserted that end with it. */
  lemma CountOfStatus(log: seq<RT.Event>, status: RT.Status)
    requires RT.DistinctInserts(log)
    ensures |RT.WithStatus(RT.Replay(log), status)| == |TestsThatEnd(log, status)|
  {
    var ids, places := RT.WithStatus(RT.Replay(log), status), TestsThatEnd(log, status);
    forall k: nat | k < |log| && log[k].Insert?
      ensures log[k].command.testId in ids <==> k in places
    {
      RT.InsertIsNotRejected(log, k);
      RT.StatusExactly(log, log[k].command.testId, k);
    }
    forall id | id in ids
      ensures exists k :: k in places && k < |log| && RT.Inserts(log[k], id)
    {
      RT.RowExists(log, id);
      var k :| 0 <= k < |log| && RT.Inserts(log[k], id);
      assert k in places;
    }
    AsManyIdsAsPlaces(log, places, ids);
  }

  /**
   The summary of any run: PASSED counts the tests whose last response after the insert has the result 1, FAILED
   those whose last response has another, and PENDING those without one.
   */
  lemma SummaryOfRun(s: State)
    requires Reachable(s) && s.built <= Gen.ID_SPAN
    ensures |RT.WithStatus(s.table, RT.Passed)| == |TestsThatEnd(s.log, RT.Passed)|
    ensures |RT.WithStatus(s.table, RT.Failed)| == |TestsThatEnd(s.log, RT.Failed)|
    ensures |RT.WithStatus(s.table, RT.Pending)| == |TestsThatEnd(s.log, RT.Pending)|
    ensures |s.table| == |set k: nat | k < |s.log| && s.log[k].Insert?|
    ensures |s.table| == |TestsThatEnd(s.log, RT.Passed)| + |TestsThatEnd(s.log, RT.Failed)| + |TestsThatEnd(s.log, RT.Pending)|
  {
    NoInsertIsRejected(s);
    TableIsReplay(s);
    CountOfStatus(s.log, RT.Passed);
    CountOfStatus(s.log, RT.Failed);
    CountOfStatus(s.log, RT.Pending);
    RowsAreInserts(s.log);
    RT.CountsAddUp(s.table);
  }

  lemma RowsAreInserts(log: seq<RT.Event>)
    requires RT.DistinctInserts(log)
    ensures |RT.Replay(log)| == |set k: nat | k < |log| && log[k].Insert?|
  {
    var places := set k: nat | k < |log| && log[k].Insert?;
    var ids := RT.Replay(log).Keys;
    forall k | k in places
      ensures log[k].command.testId in ids
    {
      RT.RowExists(log, log[k].command.testId);
      assert RT.Inserts(log[k], log[k].command.testId);
    }
    forall id | id in ids
      ensures exists k :: k in places && k < |log| && RT.Inserts(log[k], id)
    {
      RT.RowExists(log, id);
      var k :| 0 <= k < |log| && RT.Inserts(log[k], id);
      assert k in places;
    }
    AsManyIdsAsPlaces(log, places, ids);
  }
}
