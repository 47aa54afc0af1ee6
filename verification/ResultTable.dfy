/**
 The results table: SQLite is a map with a unique key, and a statement that SQLite refuses for its own
 reasons (`runs` is false) leaves the map as it was.
 */
module ResultTable {
  import opened Basics
  import CommandGenerator
  import ResponseQueue

  type Command = CommandGenerator.Command
  type Record = ResponseQueue.Record

  const TEST_SUCCESS := 1

  datatype Status = Pending | Passed | Failed

  datatype Answer = Answer(receivedTime: int, result: nat)

  datatype Row = Row(peripheral: nat, iterations: nat, payloadLen: nat, sentTime: int,
                     answer: Option<Answer>, status: Status)

  type Table = map<nat, Row>

  function NewRow(command: Command, sentTime: int): Row {
    Row(command.peripheral, command.iterations, command.patternLen, sentTime, None, Pending)
  }

  function StatusOf(record: Record): Status {
    if record.result == TEST_SUCCESS then Passed else Failed
  }

  function Answered(row: Row, record: Record): Row {
    row.(answer := Some(Answer(record.receivedTime, record.result)), status := StatusOf(record))
  }

  /** One SQL statement that ran to its end: an insert, which the unique key may reject, or an update. */
  datatype Event = Insert(command: Command, sentTime: int) | Update(record: Record)

  function Apply(t: Table, e: Event): Table {
    match e
    case Insert(command, sentTime) =>
      if command.testId in t then t else t[command.testId := NewRow(command, sentTime)]
    case Update(record) =>
      if record.testId in t then t[record.testId := Answered(t[record.testId], record)] else t
  }

  function Replay(log: seq<Event>): Table {
    if log == [] then map[] else Apply(Replay(log[..|log| - 1]), log[|log| - 1])
  }

  lemma ReplaySnoc(log: seq<Event>, e: Event)
    ensures Replay(log + [e]) == Apply(Replay(log), e)
  {
    assert (log + [e])[..|log|] == log;
  }

  // ------------------------------------------------------------------ what the final table means

  predicate Inserts(e: Event, id: nat) {
    e.Insert? && e.command.testId == id
  }

  predicate Updates(e: Event, id: nat) {
    e.Update? && e.record.testId == id
  }

  predicate FirstInsert(log: seq<Event>, id: nat, k: nat) {
    k < |log| && Inserts(log[k], id) && forall i :: 0 <= i < k ==> !Inserts(log[i], id)
  }

  predicate Unanswered(log: seq<Event>, id: nat, k: nat) {
    forall i :: k < i < |log| ==> !Updates(log[i], id)
  }

  predicate LastUpdate(log: seq<Event>, id: nat, j: nat) {
    j < |log| && Updates(log[j], id) && Unanswered(log, id, j)
  }

  /** A test has a row exactly when some insert of it ran. */
  lemma {:induction false} RowExists(log: seq<Event>, id: nat)
    ensures id in Replay(log) <==> exists k :: 0 <= k < |log| && Inserts(log[k], id)
  {
    if log != [] {
      var n := |log| - 1;
      RowExists(log[..n], id);
      if id in Replay(log[..n]) {
        var k :| 0 <= k < n && Inserts(log[..n][k], id);
        assert Inserts(log[k], id);
      } else {
        assert forall k :: 0 <= k < n ==> log[k] == log[..n][k];
        assert id in Replay(log) <==> Inserts(log[n], id);
      }
    }
  }

  /**
   The row of a test holds the command of its first insert, and it is PENDING exactly when no response
   with its id was processed after that insert; a response processed before it does not count.
   */
  lemma {:induction false} RowOfFirstInsert(log: seq<Event>, id: nat, k: nat)
    requires FirstInsert(log, id, k)
    ensures id in Replay(log)
    ensures var row, c := Replay(log)[id], log[k].command;
            && row.peripheral == c.peripheral && row.iterations == c.iterations
            && row.payloadLen == c.patternLen && row.sentTime == log[k].sentTime
            && (row.status.Pending? <==> Unanswered(log, id, k))
            && (row.answer.None? <==> Unanswered(log, id, k))
  {
    var n := |log| - 1;
    if k < n {
      RowOfFirstInsert(log[..n], id, k);
      assert Unanswered(log, id, k) <==> Unanswered(log[..n], id, k) && !Updates(log[n], id) by {
        assert forall i :: 0 <= i < n ==> log[i] == log[..n][i];
      }
    } else {
      RowExists(log[..n], id);
    }
  }

  /**
   Once answered, a row shows the last response with its id that was processed after its insert: PASSED for
   the result 1, and FAILED for any other.
   */
  lemma {:induction false} RowOfLastUpdate(log: seq<Event>, id: nat, k: nat, j: nat)
    requires FirstInsert(log, id, k) && k < j && LastUpdate(log, id, j)
    ensures id in Replay(log)
    ensures var row, c, r := Replay(log)[id], log[k].command, log[j].record;
            && row.peripheral == c.peripheral && row.iterations == c.iterations
            && row.payloadLen == c.patternLen && row.sentTime == log[k].sentTime
            && row.answer == Some(Answer(r.receivedTime, r.result))
            && row.status == if r.result == 1 then Passed else Failed
  {
    var n := |log| - 1;
    RowOfFirstInsert(log[..n], id, k);
    if j < n {
      RowOfLastUpdate(log[..n], id, k, j);
      assert !Updates(log[n], id);
    }
  }

  /** Rows are never removed, and an answered row is never PENDING again. */
  lemma {:induction false} ProgressIsKept(log: seq<Event>, more: seq<Event>, id: nat)
    requires id in Replay(log)
    ensures id in Replay(log + more)
    ensures Replay(log + more)[id].sentTime == Replay(log)[id].sentTime
    ensures !Replay(log)[id].status.Pending? ==> !Replay(log + more)[id].status.Pending?
  {
    if more == [] {
      assert log + more == log;
    } else {
      var n := |more| - 1;
      ProgressIsKept(log, more[..n], id);
      ReplaySnoc(log + more[..n], more[n]);
      assert log + more == log + more[..n] + [more[n]];
    }
  }

  /** The test inserted at k has been answered, and its last response has the result 1 or not. */
  ghost predicate AnsweredWith(log: seq<Event>, id: nat, k: nat, success: bool) {
    exists j :: k < j && LastUpdate(log, id, j) && (log[j].record.result == 1) == success
  }

  /** If some update came after the insert, there is a last one. */
  lemma {:induction false} SomeLastUpdate(log: seq<Event>, id: nat, k: nat) returns (j: nat)
    requires !Unanswered(log, id, k)
    ensures k < j && LastUpdate(log, id, j)
    decreases |log| - k
  {
    j :| k < j < |log| && Updates(log[j], id);
    if !Unanswered(log, id, j) {
      j := SomeLastUpdate(log, id, j);
    }
  }

  /** The status of every test, by its first insert and the last response after it. */
  lemma StatusExactly(log: seq<Event>, id: nat, k: nat)
    requires FirstInsert(log, id, k)
    ensures id in Replay(log)
    ensures Replay(log)[id].status == Passed <==> AnsweredWith(log, id, k, true)
    ensures Replay(log)[id].status == Failed <==> AnsweredWith(log, id, k, false)
    ensures Replay(log)[id].status == Pending <==> Unanswered(log, id, k)
  {
    RowOfFirstInsert(log, id, k);
    if !Unanswered(log, id, k) {
      var j := SomeLastUpdate(log, id, k);
      RowOfLastUpdate(log, id, k, j);
      assert AnsweredWith(log, id, k, log[j].record.result == 1);
      forall i | k < i && LastUpdate(log, id, i)
        ensures i == j
      {
      }
    }
  }

  predicate DistinctInserts(log: seq<Event>) {
    forall i, j :: 0 <= i < j < |log| && log[i].Insert? && log[j].Insert?
                   ==> log[i].command.testId != log[j].command.testId
  }

  /** With distinct ids the unique key rejects nothing: every insert of the log made its row. */
  lemma InsertIsNotRejected(log: seq<Event>, k: nat)
    requires DistinctInserts(log) && k < |log| && log[k].Insert?
    ensures log[k].command.testId !in Replay(log[..k])
    ensures FirstInsert(log, log[k].command.testId, k)
  {
    var id := log[k].command.testId;
    RowExists(log[..k], id);
    assert forall i :: 0 <= i < k ==> log[..k][i] == log[i] && !Inserts(log[i], id);
  }

  // ------------------------------------------------------------------ the summary

  function WithStatus(t: Table, s: Status): set<nat> {
    set id | id in t && t[id].status == s
  }

  /** The counts of the summary always add up to the number of rows. */
  lemma CountsAddUp(t: Table)
    ensures |WithStatus(t, Passed)| + |WithStatus(t, Failed)| + |WithStatus(t, Pending)| == |t|
  {
    var passed, failed, pending := WithStatus(t, Passed), WithStatus(t, Failed), WithStatus(t, Pending);
    assert passed !! failed && passed + failed !! pending;
    assert passed + failed + pending == t.Keys;
    assert |passed + failed| == |passed| + |failed|;
    assert |t.Keys| == |t|;
  }

  /** The database file; `log` is the history of the statements that ran since it was opened. */
  class ResultDatabase {
    var table: Table
    ghost var log: seq<Event>

    ghost predicate Valid()
      reads this
    {
      table == Replay(log)
    }

    /** A result_database_open that succeeds has deleted the rows of the previous run. */
    constructor ()
      ensures Valid() && log == []
    {
      table := map[];
      log := [];
    }

    /** result_database_insert_command; None is the null pointer. */
    method InsertCommand(command: Option<Command>, sentTime: int, runs: bool) returns (ok: bool)
      requires Valid()
      modifies this
      ensures Valid()
      ensures ok ==> command.Some? && table == old(table)[command.value.testId :=
                Row(command.value.peripheral, command.value.iterations, command.value.patternLen, sentTime, None, Pending)]
      ensures !ok ==> table == old(table)
      ensures ok <==> command.Some? && runs && command.value.testId !in old(table)
      ensures log == if command.Some? && runs then old(log) + [Insert(command.value, sentTime)] else old(log)
    {
      if command.None? || !runs {
        return false;
      }
      ReplaySnoc(log, Insert(command.value, sentTime));
      log := log + [Insert(command.value, sentTime)];
      if command.value.testId in table {
        return false;
      }
      table := table[command.value.testId := NewRow(command.value, sentTime)];
      ok := true;
    }

    /** result_database_update_response: an id without a row matches nothing, and that is a success. */
    method UpdateResponse(record: Option<Record>, runs: bool) returns (ok: bool)
      requires Valid()
      modifies this
      ensures Valid()
      ensures ok <==> record.Some? && runs
      ensures table.Keys == old(table).Keys
      ensures forall id :: id in table && !(ok && id == record.value.testId) ==> table[id] == old(table)[id]
      ensures ok && record.value.testId in table ==>
                table[record.value.testId] == old(table)[record.value.testId].(
                  answer := Some(Answer(record.value.receivedTime, record.value.result)),
                  status := if record.value.result == 1 then Passed else Failed)
      ensures log == if ok then old(log) + [Update(record.value)] else old(log)
    {
      if record.None? || !runs {
        return false;
      }
      ReplaySnoc(log, Update(record.value));
      log := log + [Update(record.value)];
      if record.value.testId in table {
        table := table[record.value.testId := Answered(table[record.value.testId], record.value)];
      }
      ok := true;
    }

    /** The four counts of result_database_print_summary. */
    method Summary() returns (total: nat, passed: nat, failed: nat, pending: nat)
      ensures total == |table|
      ensures passed == |WithStatus(table, Passed)|
      ensures failed == |WithStatus(table, Failed)|
      ensures pending == |WithStatus(table, Pending)|
      ensures total == passed + failed + pending
    {
      total := |table|;
      passed := |WithStatus(table, Passed)|;
      failed := |WithStatus(table, Failed)|;
      pending := |WithStatus(table, Pending)|;
      CountsAddUp(table);
    }
  }
}
