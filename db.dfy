/**
 * The help-request table: a TinyDB document table holding one record per
 * escalated question, kept in insertion order.
 */
module HelpRequestDb {
  import opened Wrappers

  datatype Status = Pending | Resolved

  /** One stored document: `{"id", "user_id", "question", "status", "answer"}`. */
  datatype Record = Record(id: int, userId: string, question: string, status: Status, answer: Option<string>)

  /** The document `add_help_request` stores for a table that already holds `n` records. */
  function NewRecord(n: nat, userId: string, question: string): Record {
    Record(n + 1, userId, question, Pending, None)
  }

  /** The table after `update_help_request(id, answer)`: every record with that id resolved with the answer. */
  function WithAnswer(rows: seq<Record>, id: int, answer: string): (r: seq<Record>)
    ensures |r| == |rows|
    ensures forall i :: 0 <= i < |rows| && rows[i].id != id ==> r[i] == rows[i]
    ensures forall i :: 0 <= i < |rows| && rows[i].id == id ==>
      r[i] == Record(id, rows[i].userId, rows[i].question, Resolved, Some(answer))
  {
    seq(|rows|, i requires 0 <= i < |rows| =>
      if rows[i].id == id then rows[i].(status := Resolved, answer := Some(answer)) else rows[i])
  }

  /** The records whose status is pending, in table order (`db.search(Request.status == "pending")`). */
  function PendingRecords(rows: seq<Record>): (r: seq<Record>)
    ensures |r| <= |rows|
    decreases |rows|
  {
    if rows == [] then []
    else PendingRecords(rows[..|rows| - 1]) + (if rows[|rows| - 1].status == Pending then [rows[|rows| - 1]] else [])
  }

  /** The pending view holds exactly the records of the table whose status is pending. */
  lemma {:induction false} PendingMembers(rows: seq<Record>)
    ensures forall x :: x in PendingRecords(rows) <==> x in rows && x.status == Pending
    decreases |rows|
  {
    if rows != [] {
      var front, last := rows[..|rows| - 1], rows[|rows| - 1];
      assert rows == front + [last];
      PendingMembers(front);
    }
  }

  /** Ids are 1, 2, ..., n in table order. */
  predicate SequentialIds(rows: seq<Record>) {
    forall i :: 0 <= i < |rows| ==> rows[i].id == i + 1
  }

  /** Filtering keeps table order: the pending records of a concatenation are the concatenation of the pending records. */
  lemma {:induction false} PendingAppend(a: seq<Record>, b: seq<Record>)
    ensures PendingRecords(a + b) == PendingRecords(a) + PendingRecords(b)
    decreases |b|
  {
    if b == [] {
      assert a + b == a;
    } else {
      var front, last := b[..|b| - 1], b[|b| - 1];
      assert b == front + [last];
      assert a + b == (a + front) + [last];
      assert (a + b)[..|a + b| - 1] == a + front;
      PendingAppend(a, front);
    }
  }

  /** A fresh record shows up at the end of the pending view. */
  lemma AddShowsPending(rows: seq<Record>, userId: string, question: string)
    ensures PendingRecords(rows + [NewRecord(|rows|, userId, question)])
         == PendingRecords(rows) + [NewRecord(|rows|, userId, question)]
  {
    var x := NewRecord(|rows|, userId, question);
    PendingAppend(rows, [x]);
    assert [x][..0] == [];
  }

  /** An update whose id matches no record leaves the table as it was. */
  lemma UpdateMissingIsNoOp(rows: seq<Record>, id: int, answer: string)
    requires forall i :: 0 <= i < |rows| ==> rows[i].id != id
    ensures WithAnswer(rows, id, answer) == rows
  {
  }

  /** After an update no record with that id is still pending. */
  lemma UpdateLeavesPending(rows: seq<Record>, id: int, answer: string)
    ensures forall x :: x in PendingRecords(WithAnswer(rows, id, answer)) ==> x.id != id
  {
    var r := WithAnswer(rows, id, answer);
    PendingMembers(r);
    forall x | x in PendingRecords(r) ensures x.id != id {
      var i :| 0 <= i < |r| && r[i] == x;
      assert rows[i].id != id;
    }
  }

  /** Updates never change ids, so tables built by inserts and updates keep ids 1..n. */
  lemma UpdateKeepsIds(rows: seq<Record>, id: int, answer: string)
    requires SequentialIds(rows)
    ensures SequentialIds(WithAnswer(rows, id, answer))
  {
  }

  /** Inserting at `len + 1` keeps ids 1..n. */
  lemma AddKeepsIds(rows: seq<Record>, userId: string, question: string)
    requires SequentialIds(rows)
    ensures SequentialIds(rows + [NewRecord(|rows|, userId, question)])
  {
  }

  /** With sequential ids an update touches exactly the record at position `id - 1`. */
  lemma UpdateTouchesOne(rows: seq<Record>, id: int, answer: string)
    requires SequentialIds(rows) && 1 <= id <= |rows|
    ensures WithAnswer(rows, id, answer)
         == rows[id - 1 := Record(id, rows[id - 1].userId, rows[id - 1].question, Resolved, Some(answer))]
  {
    var r := WithAnswer(rows, id, answer);
    var s := rows[id - 1 := Record(id, rows[id - 1].userId, rows[id - 1].question, Resolved, Some(answer))];
    forall i | 0 <= i < |rows| ensures r[i] == s[i] {
      if i != id - 1 {
        assert rows[i].id == i + 1 != id;
      }
    }
  }

  /** The table file, as the records it holds. */
  class Table {
    var rows: seq<Record>

    /** Opening the table file gives whatever records it already holds. */
    constructor Open(stored: seq<Record>)
      ensures rows == stored
    {
      rows := stored;
    }

    /** `add_help_request`: insert a pending, unanswered record with id `len(db) + 1` and return that id. */
    method AddHelpRequest(userId: string, question: string) returns (id: int)
      modifies this
      ensures id == |old(rows)| + 1
      ensures rows == old(rows) + [Record(id, userId, question, Pending, None)]
      ensures PendingRecords(rows) == PendingRecords(old(rows)) + [rows[|rows| - 1]]
    {
      id := |rows| + 1;
      AddShowsPending(rows, userId, question);
      rows := rows + [NewRecord(|rows|, userId, question)];
    }

    /** `update_help_request`: every record with the id becomes resolved with the answer. */
    method UpdateHelpRequest(id: int, answer: string)
      modifies this
      ensures rows == WithAnswer(old(rows), id, answer)
      ensures forall x :: x in PendingRecords(rows) ==> x.id != id
    {
      UpdateLeavesPending(rows, id, answer);
      rows := WithAnswer(rows, id, answer);
    }

    /** `get_pending`: exactly the pending records, in table order. */
    method GetPending() returns (result: seq<Record>)
      ensures forall x :: x in result <==> x in rows && x.status == Pending
      ensures result == PendingRecords(rows)
    {
      PendingMembers(rows);
      result := PendingRecords(rows);
    }

    /** `get_all`: every record, resolved or pending. */
    method GetAll() returns (result: seq<Record>)
      ensures result == rows
    {
      result := rows;
    }
  }
}
