/** Maintenance runs one after the other, each from the cursor that the last saved run left. */
module RetentionHistory {
  import opened Prelude
  import opened RetentionPages
  import opened RetentionSweep

  /** A run whose cursor was not saved, because of a crash or an error, leaves the cursor as it was. */
  datatype History = Fresh | Later(earlier: History, sweep: Sweep, saved: bool)

  function CursorAfter(h: History): Option<Cursor> {
    match h
    case Fresh => None
    case Later(earlier, sweep, saved) => if saved then Reached(sweep) else CursorAfter(earlier)
  }

  /** Every run starts from the saved cursor. */
  predicate Resumed(h: History) {
    match h
    case Fresh => true
    case Later(earlier, sweep, _) => Resumed(earlier) && Chained(sweep) && Origin(sweep) == CursorAfter(earlier)
  }

  /** No saved run has come to the end of the inventory yet. */
  predicate Unfinished(h: History) {
    match h
    case Fresh => true
    case Later(earlier, sweep, saved) => Unfinished(earlier) && (saved && sweep.Then? ==> Reached(sweep).Some?)
  }

  ghost predicate Tables(h: History) {
    h.Later? ==> Tables(h.earlier) && TablesOrdered(h.sweep)
  }

  ghost predicate StaysThroughout(h: History, row: Row) {
    h.Later? ==> StaysThroughout(h.earlier, row) && AlwaysThere(h.sweep, row)
  }

  predicate ScannedIn(h: History, row: Row) {
    h.Later? && (ScannedIn(h.earlier, row) || IsScanned(Scanned(h.sweep), row))
  }

  /** Whatever is lost between the runs, a row that stays is scanned or still ahead. */
  lemma {:induction false} NothingSkipped(h: History, row: Row)
    requires Resumed(h) && Unfinished(h) && Tables(h) && StaysThroughout(h, row)
    ensures ScannedIn(h, row) || Beyond(row, CursorAfter(h))
  {
    if h.Later? {
      NothingSkipped(h.earlier, row);
      if !ScannedIn(h.earlier, row) {
        NoGaps(h.sweep, row);
      }
    }
  }

  /** When a run comes to the end, every row that has been there since the sweep began has been scanned. */
  lemma FinishedSweepScansAll(h: History, sweep: Sweep, row: Row)
    requires Resumed(Later(h, sweep, true)) && Unfinished(h) && Tables(Later(h, sweep, true))
    requires sweep.Then? && Reached(sweep).None? && StaysThroughout(Later(h, sweep, true), row)
    ensures ScannedIn(Later(h, sweep, true), row)
  {
    NothingSkipped(h, row);
    if !ScannedIn(h, row) {
      NoGaps(sweep, row);
    }
  }

  /** All runs as one sweep. */
  function Joined(h: History): Sweep {
    match h
    case Fresh => From(None)
    case Later(earlier, sweep, _) => Join(Joined(earlier), sweep)
  }

  predicate AllSaved(h: History) {
    h.Later? ==> AllSaved(h.earlier) && h.saved
  }

  /** Every cursor that was handed on is exact, as it is when the table holds whole milliseconds only. */
  predicate AllExact(h: History) {
    h.Later? ==> AllExact(h.earlier) && CursorsExact(h.sweep)
  }

  lemma {:induction false} JoinKeeps(first: Sweep, second: Sweep, row: Row)
    ensures TablesOrdered(first) && TablesOrdered(second) ==> TablesOrdered(Join(first, second))
    ensures CursorsExact(first) && CursorsExact(second) ==> CursorsExact(Join(first, second))
    ensures AlwaysThere(first, row) && AlwaysThere(second, row) ==> AlwaysThere(Join(first, second), row)
    ensures Join(first, second).Then? <==> first.Then? || second.Then?
  {
    if second.Then? {
      JoinKeeps(first, second.init, row);
    }
  }

  /** Saved runs are one long sweep from the beginning. */
  lemma {:induction false} RunsAreOneSweep(h: History, row: Row)
    requires Resumed(h) && Unfinished(h) && AllSaved(h)
    ensures Chained(Joined(h)) && Origin(Joined(h)).None? && Reached(Joined(h)) == CursorAfter(h)
    ensures Joined(h).Then? ==> CursorAfter(h).Some?
    ensures Tables(h) ==> TablesOrdered(Joined(h))
    ensures AllExact(h) ==> CursorsExact(Joined(h))
    ensures StaysThroughout(h, row) ==> AlwaysThere(Joined(h), row)
  {
    if h.Later? {
      RunsAreOneSweep(h.earlier, row);
      ChainsJoin(Joined(h.earlier), h.sweep);
      JoinKeeps(Joined(h.earlier), h.sweep, row);
    }
  }

  /**
   * Chained runs, from the first one to the one that comes to the end, scan a row that stays exactly once
   * if and only if it never was between a cursor and the row that the cursor was made from.
   */
  lemma RunsScanExactlyOnce(h: History, last: Sweep, row: Row)
    requires Resumed(Later(h, last, true)) && Unfinished(h) && AllSaved(h)
    requires Tables(Later(h, last, true))
    requires last.Then? && Reached(last).None? && StaysThroughout(Later(h, last, true), row)
    ensures var sweep := Joined(Later(h, last, true));
            ExactlyOnce(Scanned(sweep), row) <==> NeverBetween(sweep, row)
  {
    RunsAreOneSweep(h, row);
    ChainsJoin(Joined(h), last);
    JoinKeeps(Joined(h), last, row);
    ScannedExactlyOnce(Join(Joined(h), last), row);
  }

  /** In particular exactly once when every cursor is exact, as for all rows that the repository writes. */
  lemma ExactRunsScanOnce(h: History, last: Sweep, row: Row)
    requires Resumed(Later(h, last, true)) && Unfinished(h) && AllSaved(h)
    requires Tables(Later(h, last, true)) && AllExact(Later(h, last, true))
    requires last.Then? && Reached(last).None? && StaysThroughout(Later(h, last, true), row)
    ensures ExactlyOnce(Scanned(Joined(Later(h, last, true))), row)
  {
    RunsAreOneSweep(h, row);
    ChainsJoin(Joined(h), last);
    JoinKeeps(Joined(h), last, row);
    ExactCursorsSuffice(Join(Joined(h), last));
    NothingIsNever(Join(Joined(h), last), row);
    RunsScanExactlyOnce(h, last, row);
  }
}
