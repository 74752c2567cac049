/** A sweep over the inventory, possibly over many runs. */
module RetentionSweep {
  import opened Prelude
  import opened RetentionPages

  /** The page reads from a cursor on. */
  datatype Sweep = From(cursor: Option<Cursor>) | Then(init: Sweep, last: Read)

  /** Where the next read would start. */
  function Reached(sweep: Sweep): Option<Cursor> {
    match sweep
    case From(cursor) => cursor
    case Then(_, last) => NextOf(last)
  }

  /** Every read starts where the read before it ended, which was not the end. */
  predicate Chained(sweep: Sweep) {
    match sweep
    case From(_) => true
    case Then(init, last) =>
      && Chained(init)
      && last.limit > 0 && last.cursor == Reached(init) && (init.Then? ==> last.cursor.Some?)
  }

  function Scanned(sweep: Sweep): seq<Row> {
    match sweep
    case From(_) => []
    case Then(init, last) => Scanned(init) + PageOf(last)
  }

  function Origin(sweep: Sweep): Option<Cursor> {
    match sweep
    case From(cursor) => cursor
    case Then(init, _) => Origin(init)
  }

  /** The tables are ordered by unique keys. */
  ghost predicate TablesOrdered(sweep: Sweep) {
    sweep.Then? ==> TablesOrdered(sweep.init) && Ordered(sweep.last.table)
  }

  /** Every row that is there at a read has a time in whole milliseconds. */
  ghost predicate TablesWhole(sweep: Sweep) {
    sweep.Then? ==> TablesWhole(sweep.init) && forall row | row in sweep.last.table :: Whole(row)
  }

  /** A row that the page hands on as the cursor has a time in whole milliseconds. */
  predicate HandsOnWhole(read: Read) {
    NextOf(read).Some? ==> Whole(PageOf(read)[|PageOf(read)| - 1])
  }

  predicate CursorsExact(sweep: Sweep) {
    sweep.Then? ==> CursorsExact(sweep.init) && HandsOnWhole(sweep.last)
  }

  lemma {:induction false} WholeTablesSuffice(sweep: Sweep)
    requires TablesWhole(sweep)
    ensures CursorsExact(sweep)
  {
    if sweep.Then? {
      WholeTablesSuffice(sweep.init);
      if NextOf(sweep.last).Some? {
        var page := PageOf(sweep.last);
        PagesLieBeyond(sweep.last, page[|page| - 1]);
      }
    }
  }

  predicate SameKey(a: Row, b: Row) {
    a.completedAt == b.completedAt && a.runId == b.runId
  }

  /** The table has a row with this key that is due. */
  ghost predicate Holds(read: Read, row: Row) {
    row.completedAt <= read.before * 1000 && exists r | r in read.table :: SameKey(r, row)
  }

  /** The row is there at every read. */
  ghost predicate AlwaysThere(sweep: Sweep, row: Row) {
    sweep.Then? ==> AlwaysThere(sweep.init, row) && Holds(sweep.last, row)
  }

  lemma OrderedJoins(first: seq<Row>, second: seq<Row>)
    requires Ordered(first) && Ordered(second)
    requires first != [] ==>
               forall row | row in second :: Before(first[|first| - 1].completedAt, first[|first| - 1].runId, row)
    ensures Ordered(first + second)
  {
    var both := first + second;
    forall i, j | 0 <= i < j < |both|
      ensures Before(both[i].completedAt, both[i].runId, both[j])
    {
      if i < |first| <= j {
        var last := first[|first| - 1];
        assert both[j] == second[j - |first|];
        assert second[j - |first|] in second;
        assert Before(last.completedAt, last.runId, both[j]);
        if i < |first| - 1 {
          assert Before(first[i].completedAt, first[i].runId, last);
        }
      } else if |first| <= i {
        assert both[i] == second[i - |first|] && both[j] == second[j - |first|];
      }
    }
  }

  /** Everything on a page lies beyond the cursor that the page was read with. */
  lemma PagesLieBeyond(read: Read, row: Row)
    requires row in PageOf(read)
    ensures row in read.table && Beyond(row, read.cursor)
  {
  }

  /** Every due row beyond the cursor of a read lies beyond the last row of the page before, too. */
  ghost predicate NoneBetween(last: Row, read: Read) {
    forall row | row in read.table && row.completedAt <= read.before * 1000 && Beyond(row, read.cursor) ::
      Before(last.completedAt, last.runId, row)
  }

  function LastOf(read: Read): Row
    requires PageOf(read) != []
  {
    PageOf(read)[|PageOf(read)| - 1]
  }

  /** At no read is there a due row between the cursor and the row that the cursor was made from. */
  ghost predicate NothingBetween(sweep: Sweep) {
    sweep.Then? ==>
      && NothingBetween(sweep.init)
      && (sweep.init.Then? && PageOf(sweep.init.last) != [] ==> NoneBetween(LastOf(sweep.init.last), sweep.last))
  }

  lemma OrderedSplits(first: seq<Row>, second: seq<Row>, last: Row)
    requires first != [] && first[|first| - 1] == last && Ordered(first + second)
    ensures Ordered(first) && forall row | row in second :: Before(last.completedAt, last.runId, row)
  {
    var both := first + second;
    assert forall i | 0 <= i < |first| :: both[i] == first[i];
    forall row | row in second
      ensures Before(last.completedAt, last.runId, row)
    {
      var j :| 0 <= j < |second| && second[j] == row;
      assert both[|first| - 1] == last && both[|first| + j] == row;
    }
  }

  /** When the page comes after a row, so does everything that is due beyond the cursor. */
  lemma PageDecides(last: Row, read: Read)
    requires Ordered(read.table) && read.limit > 0
    ensures NoneBetween(last, read) <==> forall row | row in PageOf(read) :: Before(last.completedAt, last.runId, row)
  {
    if forall row | row in PageOf(read) :: Before(last.completedAt, last.runId, row) {
      forall row | row in Listed(read.table, read.before, read.cursor)
        ensures Before(last.completedAt, last.runId, row)
      {
        if row !in PageOf(read) {
          LeftOutLiesBeyond(read, row);
          assert PageOf(read)[read.limit - 1] in PageOf(read);
        }
      }
    }
  }

  /** The last row that has been scanned is the last of the last page. */
  lemma EndsWithPage(rows: seq<Row>, page: seq<Row>)
    requires page != []
    ensures (rows + page)[|rows + page| - 1] == page[|page| - 1]
  {
  }

  /**
   * The scanned rows are strictly in the order of their keys, and so nothing is scanned twice, exactly
   * when at no read a due row of the table lies between the cursor and the last row of the page before.
   */
  lemma {:induction false} NoRepeats(sweep: Sweep)
    requires Chained(sweep) && TablesOrdered(sweep)
    ensures Ordered(Scanned(sweep)) <==> NothingBetween(sweep)
  {
    if sweep.Then? {
      NoRepeats(sweep.init);
      PageIsOrdered(sweep.last);
      if sweep.init.From? {
        assert Scanned(sweep) == PageOf(sweep.last);
      } else {
        var last := LastOf(sweep.init.last);
        EndsWithPage(Scanned(sweep.init.init), PageOf(sweep.init.last));
        PageDecides(last, sweep.last);
        if Ordered(Scanned(sweep)) {
          OrderedSplits(Scanned(sweep.init), PageOf(sweep.last), last);
        } else if NothingBetween(sweep) {
          OrderedJoins(Scanned(sweep.init), PageOf(sweep.last));
        }
      }
    }
  }

  /** Cursors of whole milliseconds leave nothing between, whatever comes and goes. */
  lemma {:induction false} ExactCursorsSuffice(sweep: Sweep)
    requires Chained(sweep) && CursorsExact(sweep)
    ensures NothingBetween(sweep)
  {
    if sweep.Then? {
      ExactCursorsSuffice(sweep.init);
      if sweep.init.Then? {
        forall row | Beyond(row, sweep.last.cursor)
          ensures Before(LastOf(sweep.init.last).completedAt, LastOf(sweep.init.last).runId, row)
        {
          CursorIsBehind(LastOf(sweep.init.last), row);
        }
      }
    }
  }

  /**
   * As long as the row that a page handed on is there, nothing is between exactly when its time is a whole
   * millisecond: a finer row stands between its own cursor and itself.
   */
  lemma BetweenExactlyWhenFiner(last: Row, read: Read)
    requires read.cursor == Some(CursorOf(last)) && last in read.table && last.completedAt <= read.before * 1000
    ensures NoneBetween(last, read) <==> Whole(last)
  {
    if Whole(last) {
      forall row | Beyond(row, read.cursor)
        ensures Before(last.completedAt, last.runId, row)
      {
        CursorIsBehind(last, row);
      }
    }
  }

  /** At one read: the row is on the page, or the sweep goes on in front of it. */
  lemma ScannedOrStillAhead(read: Read, row: Row)
    requires Ordered(read.table) && read.limit > 0 && Beyond(row, read.cursor) && Holds(read, row)
    ensures || IsScanned(PageOf(read), row)
            || (NextOf(read).Some? && Beyond(row, NextOf(read)))
  {
    var here: Row :| here in read.table && SameKey(here, row);
    if here !in PageOf(read) {
      LeftOutLiesBeyond(read, here);
      CursorIsBehind(PageOf(read)[read.limit - 1], row);
    }
  }

  /** A row that is there at every read is scanned or still ahead, whatever comes and goes around it. */
  lemma {:induction false} NoGaps(sweep: Sweep, row: Row)
    requires Chained(sweep) && TablesOrdered(sweep) && Beyond(row, Origin(sweep)) && AlwaysThere(sweep, row)
    ensures || IsScanned(Scanned(sweep), row)
            || (Beyond(row, Reached(sweep)) && (sweep.Then? ==> Reached(sweep).Some?))
  {
    if sweep.Then? {
      NoGaps(sweep.init, row);
      if r :| r in Scanned(sweep.init) && SameKey(r, row) {
        assert r in Scanned(sweep);
      } else {
        ScannedOrStillAhead(sweep.last, row);
        if r :| r in PageOf(sweep.last) && SameKey(r, row) {
          assert r in Scanned(sweep);
        }
      }
    }
  }

  ghost predicate ExactlyOnce(rows: seq<Row>, row: Row) {
    exists i ::
      && 0 <= i < |rows| && SameKey(rows[i], row)
      && forall j | 0 <= j < |rows| && SameKey(rows[j], row) :: j == i
  }

  predicate IsScanned(rows: seq<Row>, row: Row) {
    exists r | r in rows :: SameKey(r, row)
  }

  predicate IsScannedTwice(rows: seq<Row>, row: Row) {
    exists i, j | 0 <= i < j < |rows| :: SameKey(rows[i], row) && SameKey(rows[j], row)
  }

  lemma OnceOrTwice(rows: seq<Row>, row: Row)
    ensures ExactlyOnce(rows, row) <==> IsScanned(rows, row) && !IsScannedTwice(rows, row)
  {
    if IsScanned(rows, row) && !IsScannedTwice(rows, row) {
      var r :| r in rows && SameKey(r, row);
      var i :| 0 <= i < |rows| && rows[i] == r;
      forall j | 0 <= j < |rows| && SameKey(rows[j], row)
        ensures j == i
      {
      }
    }
  }

  lemma JoinedTwice(first: seq<Row>, second: seq<Row>, row: Row)
    ensures IsScanned(first + second, row) <==> IsScanned(first, row) || IsScanned(second, row)
    ensures IsScannedTwice(first, row) ==> IsScannedTwice(first + second, row)
    ensures IsScannedTwice(first + second, row) ==>
              IsScannedTwice(first, row) || IsScannedTwice(second, row) || (IsScanned(first, row) && IsScanned(second, row))
    ensures IsScanned(first, row) && IsScanned(second, row) ==> IsScannedTwice(first + second, row)
  {
    var both := first + second;
    assert forall i | 0 <= i < |first| :: both[i] == first[i];
    assert forall i | |first| <= i < |both| :: both[i] == second[i - |first|];
    if IsScanned(first, row) && IsScanned(second, row) {
      var r, q :| r in first && SameKey(r, row) && q in second && SameKey(q, row);
      var i :| 0 <= i < |first| && first[i] == r;
      var j :| 0 <= j < |second| && second[j] == q;
      assert SameKey(both[i], row) && SameKey(both[|first| + j], row);
    }
    if IsScannedTwice(first, row) {
      var i, j :| 0 <= i < j < |first| && SameKey(first[i], row) && SameKey(first[j], row);
      assert SameKey(both[i], row) && SameKey(both[j], row);
    }
    if IsScannedTwice(both, row) {
      var i, j :| 0 <= i < j < |both| && SameKey(both[i], row) && SameKey(both[j], row);
    }
  }

  /** At no read is the row between the cursor and the row that the cursor was made from. */
  predicate NeverBetween(sweep: Sweep, row: Row) {
    sweep.Then? ==>
      && NeverBetween(sweep.init, row)
      && (sweep.init.Then? && PageOf(sweep.init.last) != [] && Beyond(row, sweep.last.cursor) ==>
            Before(LastOf(sweep.init.last).completedAt, LastOf(sweep.init.last).runId, row))
  }

  lemma {:induction false} NothingIsNever(sweep: Sweep, row: Row)
    requires NothingBetween(sweep) && AlwaysThere(sweep, row)
    ensures NeverBetween(sweep, row)
  {
    if sweep.Then? {
      NothingIsNever(sweep.init, row);
    }
  }

  /** The sweep has passed the row: its last page ends at the row or behind it. */
  predicate Passed(sweep: Sweep, row: Row) {
    sweep.Then? && (PageOf(sweep.last) != [] ==>
                      !Before(LastOf(sweep.last).completedAt, LastOf(sweep.last).runId, row))
  }

  /** On an ordered page a row is there at most once, and not behind the end. */
  lemma OnPage(read: Read, row: Row)
    requires Ordered(read.table)
    ensures !IsScannedTwice(PageOf(read), row)
    ensures IsScanned(PageOf(read), row) ==>
              && Beyond(row, read.cursor)
              && !Before(LastOf(read).completedAt, LastOf(read).runId, row)
  {
    PageIsOrdered(read);
    var page := PageOf(read);
    if IsScanned(page, row) {
      var r :| r in page && SameKey(r, row);
      var i :| 0 <= i < |page| && page[i] == r;
      PagesLieBeyond(read, r);
    }
    forall i, j | 0 <= i < j < |page|
      ensures !(SameKey(page[i], row) && SameKey(page[j], row))
    {
      KeysDiffer(page, i, j);
    }
  }

  lemma {:induction false} AtMostOnce(sweep: Sweep, row: Row)
    requires Chained(sweep) && TablesOrdered(sweep) && NeverBetween(sweep, row)
    ensures !IsScannedTwice(Scanned(sweep), row)
    ensures IsScanned(Scanned(sweep), row) ==> Passed(sweep, row)
  {
    if sweep.Then? {
      AtMostOnce(sweep.init, row);
      OnPage(sweep.last, row);
      JoinedTwice(Scanned(sweep.init), PageOf(sweep.last), row);
      if IsScanned(Scanned(sweep.init), row) && PageOf(sweep.last) != [] {
        PagesLieBeyond(sweep.last, LastOf(sweep.last));
      }
    }
  }

  /** A row that is always there and that the sweep has passed has been scanned. */
  lemma PassedIsScanned(sweep: Sweep, row: Row)
    requires Chained(sweep) && TablesOrdered(sweep) && Beyond(row, Origin(sweep)) && AlwaysThere(sweep, row)
    requires sweep.Then? && PageOf(sweep.last) != [] && Passed(sweep, row)
    ensures IsScanned(Scanned(sweep), row)
  {
    NoGaps(sweep.init, row);
    JoinedTwice(Scanned(sweep.init), PageOf(sweep.last), row);
    if !IsScanned(Scanned(sweep.init), row) {
      OnPassedPage(sweep.last, row);
    }
  }

  lemma OnPassedPage(read: Read, row: Row)
    requires Ordered(read.table) && read.limit > 0 && Beyond(row, read.cursor) && Holds(read, row)
    requires PageOf(read) != [] && !Before(LastOf(read).completedAt, LastOf(read).runId, row)
    ensures IsScanned(PageOf(read), row)
  {
    var here: Row :| here in read.table && SameKey(here, row);
    NotBeyondEnd(read, here);
    assert here in PageOf(read) && SameKey(here, row);
  }

  lemma NotBeyondEnd(read: Read, here: Row)
    requires Ordered(read.table) && read.limit > 0 && here in Listed(read.table, read.before, read.cursor)
    requires PageOf(read) != [] && !Before(LastOf(read).completedAt, LastOf(read).runId, here)
    ensures here in PageOf(read)
  {
    if here !in PageOf(read) {
      LeftOutLiesBeyond(read, here);
    }
  }

  /** A row that was between at some read has been scanned twice, or once and is ahead again. */
  lemma {:induction false} BetweenRepeats(sweep: Sweep, row: Row)
    requires Chained(sweep) && TablesOrdered(sweep) && Beyond(row, Origin(sweep)) && AlwaysThere(sweep, row)
    requires !NeverBetween(sweep, row)
    ensures || IsScannedTwice(Scanned(sweep), row)
            || (IsScanned(Scanned(sweep), row) && Reached(sweep).Some? && Beyond(row, Reached(sweep)))
  {
    if NeverBetween(sweep.init, row) {
      PassedIsScanned(sweep.init, row);
    } else {
      BetweenRepeats(sweep.init, row);
    }
    JoinedTwice(Scanned(sweep.init), PageOf(sweep.last), row);
    if !IsScannedTwice(Scanned(sweep.init), row) {
      ScannedOrStillAhead(sweep.last, row);
    }
  }

  /**
   * A finished sweep from the beginning scans a row that is always there exactly once if and only if the
   * row never was between a cursor and the row that the cursor was made from.
   */
  lemma ScannedExactlyOnce(sweep: Sweep, row: Row)
    requires Chained(sweep) && TablesOrdered(sweep)
    requires Origin(sweep).None? && sweep.Then? && Reached(sweep).None? && AlwaysThere(sweep, row)
    ensures ExactlyOnce(Scanned(sweep), row) <==> NeverBetween(sweep, row)
  {
    NoGaps(sweep, row);
    OnceOrTwice(Scanned(sweep), row);
    if NeverBetween(sweep, row) {
      AtMostOnce(sweep, row);
    } else {
      BetweenRepeats(sweep, row);
    }
  }

  lemma KeysDiffer(rows: seq<Row>, i: nat, j: nat)
    requires Ordered(rows) && i < |rows| && j < |rows|
    ensures i < j ==> !SameKey(rows[i], rows[j])
  {
    assert i < j ==> Before(rows[i].completedAt, rows[i].runId, rows[j]);
  }

  /** The reads of one run and then those of the next one. */
  function Join(first: Sweep, second: Sweep): Sweep {
    match second
    case From(_) => first
    case Then(init, last) => Then(Join(first, init), last)
  }

  lemma Associate<T>(a: seq<T>, b: seq<T>, c: seq<T>)
    ensures a + (b + c) == (a + b) + c
  {
  }

  /** A run that starts from the cursor of the run before goes on with the same sweep. */
  lemma {:induction false} ChainsJoin(first: Sweep, second: Sweep)
    requires Chained(first) && Chained(second) && Origin(second) == Reached(first)
    requires first.Then? ==> Reached(first).Some?
    ensures Chained(Join(first, second)) && Origin(Join(first, second)) == Origin(first)
    ensures Reached(Join(first, second)) == Reached(second)
    ensures Scanned(Join(first, second)) == Scanned(first) + Scanned(second)
  {
    if second.Then? {
      ChainsJoin(first, second.init);
      Associate(Scanned(first), Scanned(second.init), PageOf(second.last));
    }
  }
}
