/** The inventory, page by page behind a keyset cursor. */
module RetentionPages {
  // Rows come and go between the pages.

  import opened Prelude

  datatype Reason =
    | ELIGIBLE | ALREADY_PRUNED | PROJECTION_MISSING | INCIDENT_PROCESSING_PENDING | PAYLOAD_MISSING
    | SCHEDULER_MISSING | SCHEDULER_NOT_SUCCEEDED | SCHEDULER_LINK_MISMATCH | INCIDENT_PINNED
    | NOTIFICATION_PINNED | REPAIR_APPROVAL_PINNED | ACCEPTED_BASELINE_PINNED | RECENT_STATE_PINNED

  /** A row as the database holds it: times in microseconds, the run id as the number that it is. */
  datatype Row = Row(completedAt: int, runId: nat, reason: Reason, payloadPrunedAt: Option<int>)

  /** The place after a row as the program holds it: the time in milliseconds. */
  datatype Cursor = Cursor(completedAt: int, runId: nat)

  /** The database driver keeps whole milliseconds. */
  function Milliseconds(time: int): int {
    time / 1000
  }

  function CursorOf(row: Row): Cursor {
    Cursor(Milliseconds(row.completedAt), row.runId)
  }

  predicate Before(time: int, runId: nat, row: Row) {
    time < row.completedAt || (time == row.completedAt && runId < row.runId)
  }

  /** Of two rows with different keys exactly one comes before the other, the one with the earlier time if they differ. */
  lemma OrderIsTotal(a: Row, b: Row)
    requires a.completedAt != b.completedAt || a.runId != b.runId
    ensures Before(a.completedAt, a.runId, b) <==> !Before(b.completedAt, b.runId, a)
    ensures a.completedAt < b.completedAt ==> Before(a.completedAt, a.runId, b)
    ensures a.completedAt == b.completedAt && a.runId < b.runId ==> Before(a.completedAt, a.runId, b)
  {
  }

  /** `(completed_at,run_id) > (cursor)` */
  predicate Beyond(row: Row, cursor: Option<Cursor>) {
    cursor.None? || Before(cursor.value.completedAt * 1000, cursor.value.runId, row)
  }

  /** The row's time is a whole millisecond, as the writer of health runs stores it. */
  predicate Whole(row: Row) {
    row.completedAt % 1000 == 0
  }

  /** Rows in the order of their keys, which are unique. */
  ghost predicate Ordered(rows: seq<Row>) {
    forall i, j | 0 <= i < j < |rows| :: Before(rows[i].completedAt, rows[i].runId, rows[j])
  }

  function Listed(table: seq<Row>, before: int, cursor: Option<Cursor>): (rows: seq<Row>)
    ensures forall row :: row in rows <==> row in table && row.completedAt <= before * 1000 && Beyond(row, cursor)
  {
    if table == [] then []
    else
      var rest := Listed(table[1..], before, cursor);
      if table[0].completedAt <= before * 1000 && Beyond(table[0], cursor) then [table[0]] + rest else rest
  }

  /** One page read: the table at that moment, the cutoff, the cursor and the page limit. */
  datatype Read = Read(table: seq<Row>, before: int, cursor: Option<Cursor>, limit: nat)

  function PageOf(read: Read): (page: seq<Row>)
    ensures |page| <= read.limit
  {
    var rows := Listed(read.table, read.before, read.cursor);
    if |rows| <= read.limit then rows else rows[..read.limit]
  }

  /** A full page hands its last row on as the cursor; a short one is the end. */
  function NextOf(read: Read): Option<Cursor> {
    var page := PageOf(read);
    if page == [] || |page| < read.limit then None else Some(CursorOf(page[|page| - 1]))
  }

  /** Exactly a full page that is not empty hands on a cursor, that of its last row. */
  lemma HandsOnExactly(read: Read)
    ensures NextOf(read).Some? <==> |PageOf(read)| == read.limit && read.limit > 0
    ensures NextOf(read).Some? ==>
              var last := PageOf(read)[read.limit - 1];
              NextOf(read).value.completedAt * 1000 <= last.completedAt < NextOf(read).value.completedAt * 1000 + 1000
              && NextOf(read).value.runId == last.runId
  {
  }

  lemma {:induction false} ListedIsOrdered(table: seq<Row>, before: int, cursor: Option<Cursor>)
    requires Ordered(table)
    ensures Ordered(Listed(table, before, cursor))
  {
    if table != [] {
      assert Ordered(table[1..]);
      ListedIsOrdered(table[1..], before, cursor);
      var rest := Listed(table[1..], before, cursor);
      forall j | 0 <= j < |rest|
        ensures Before(table[0].completedAt, table[0].runId, rest[j])
      {
        assert rest[j] in table[1..];
      }
    }
  }

  lemma PageIsOrdered(read: Read)
    requires Ordered(read.table)
    ensures Ordered(PageOf(read))
  {
    ListedIsOrdered(read.table, read.before, read.cursor);
  }

  /** A row that the page leaves out although it is listed lies beyond the last row of the page. */
  lemma LeftOutLiesBeyond(read: Read, row: Row)
    requires Ordered(read.table) && read.limit > 0
    requires row in Listed(read.table, read.before, read.cursor) && row !in PageOf(read)
    ensures |PageOf(read)| == read.limit
    ensures var last := PageOf(read)[read.limit - 1]; Before(last.completedAt, last.runId, row)
  {
    ListedIsOrdered(read.table, read.before, read.cursor);
    var rows := Listed(read.table, read.before, read.cursor);
    var page := PageOf(read);
    forall k | 0 <= k < |page|
      ensures rows[k] in page
    {
      assert page[k] == rows[k];
    }
    var i :| 0 <= i < |rows| && rows[i] == row;
  }

  /** The cursor is never later than the row that it was made from, and exact for a whole millisecond. */
  lemma CursorIsBehind(last: Row, row: Row)
    ensures Before(last.completedAt, last.runId, row) ==> Beyond(row, Some(CursorOf(last)))
    ensures Whole(last) ==> (Beyond(row, Some(CursorOf(last))) <==> Before(last.completedAt, last.runId, row))
  {
  }

  /** A page of one row with a finer time is read again and again. */
  lemma FinerTimeStalls()
    ensures var read := Read([Row(1, 0, ALREADY_PRUNED, None)], 1, None, 1);
            var again := read.(cursor := NextOf(read));
            Ordered(read.table) && NextOf(read).Some? && PageOf(again) == PageOf(read) && NextOf(again) == again.cursor
  {
    var row := Row(1, 0, ALREADY_PRUNED, None);
    var none: seq<Row> := [];
    assert [row][1..] == none;
    assert Listed(none, 1, None) == [] && Listed(none, 1, Some(Cursor(0, 0))) == [];
    assert Listed([row], 1, None) == [row];
    assert Listed([row], 1, Some(Cursor(0, 0))) == [row];
  }
}
