/** The inventory loop of one maintenance run. */
module RetentionScan {
  import opened Prelude
  import opened RetentionPages
  import opened RetentionSweep
  import opened RetentionLimits
  import opened RetentionTally

  /** What the loop sees of the world: the clock at each check, the table at each page, the tries by position. */
  datatype World = World(nowMs: nat -> int, table: nat -> seq<Row>, attempt: nat -> Outcome)

  /** The fixed part of a run. */
  datatype Plan = Plan(apply: bool, limits: Limits, deadlineAt: int, rawBefore: int, replayBefore: int)

  /** One of the first checks of the clock saw the deadline. */
  ghost predicate DeadlineSeen(w: World, p: Plan, checks: nat) {
    exists k: nat | k < checks :: w.nowMs(k) >= p.deadlineAt
  }

  /** What was tried ended as the repository answered for that row. */
  predicate Answered(w: World, log: seq<Deed>) {
    forall k | 0 <= k < |log| && log[k].handling.TRIED? :: log[k].handling.outcome == w.attempt(k)
  }

  /** Each row had a check of the clock of its own, and was only counted exactly when that saw the deadline. */
  predicate Timed(w: World, p: Plan, log: seq<Deed>, clocks: seq<nat>, checks: nat) {
    && |clocks| == |log| && (forall i, j | 0 <= i < j < |clocks| :: clocks[i] < clocks[j])
    && forall k | 0 <= k < |clocks| ::
         clocks[k] < checks && (log[k].handling.ONLY_COUNTED? <==> w.nowMs(clocks[k]) >= p.deadlineAt)
  }

  ghost predicate Watched(w: World, p: Plan, log: seq<Deed>, checks: nat) {
    p.apply ==> exists clocks :: Timed(w, p, log, clocks, checks)
  }

  lemma WatchedOnce(w: World, p: Plan, log: seq<Deed>, checks: nat, d: Deed)
    requires Watched(w, p, log, checks)
    requires p.apply ==> (d.handling.ONLY_COUNTED? <==> w.nowMs(checks) >= p.deadlineAt)
    ensures Watched(w, p, log + [d], checks + 1)
  {
    if p.apply {
      var clocks :| Timed(w, p, log, clocks, checks);
      assert Timed(w, p, log + [d], clocks + [checks], checks + 1);
    }
  }

  lemma WatchedOn(w: World, p: Plan, log: seq<Deed>, checks: nat, used: nat)
    requires Watched(w, p, log, checks) && checks <= used
    ensures Watched(w, p, log, used)
  {
    if p.apply {
      var clocks :| Timed(w, p, log, clocks, checks);
      assert Timed(w, p, log, clocks, used);
    }
  }

  lemma NothingWatched(w: World, p: Plan)
    ensures Watched(w, p, [], 0)
  {
    assert Timed(w, p, [], [], 0);
  }

  /** Each page had a check of its own that came before the deadline. */
  predicate Turns(w: World, p: Plan, turns: seq<nat>, checks: nat) {
    && (forall i, j | 0 <= i < j < |turns| :: turns[i] < turns[j])
    && forall k | 0 <= k < |turns| :: turns[k] < checks && w.nowMs(turns[k]) < p.deadlineAt
  }

  ghost predicate Turned(w: World, p: Plan, pages: nat, checks: nat) {
    exists turns :: |turns| == pages && Turns(w, p, turns, checks)
  }

  lemma TurnedOnce(w: World, p: Plan, pages: nat, checks: nat, used: nat)
    requires Turned(w, p, pages, checks) && w.nowMs(checks) < p.deadlineAt && checks < used
    ensures Turned(w, p, pages + 1, used)
  {
    var turns :| |turns| == pages && Turns(w, p, turns, checks);
    assert Turns(w, p, turns + [checks], used);
  }

  lemma TurnedOn(w: World, p: Plan, pages: nat, checks: nat)
    requires Turned(w, p, pages, checks)
    ensures Turned(w, p, pages, checks + 1)
  {
    var turns :| |turns| == pages && Turns(w, p, turns, checks);
    assert Turns(w, p, turns, checks + 1);
  }

  /** The log of the rows so far, with its counters and the deadline flag. */
  ghost predicate Scanning(w: World, p: Plan, t: Tally, log: seq<Deed>, checks: nat, deadlineReached: bool) {
    && Counts(t, log, p.replayBefore) && ProperLog(log, p.limits, p.replayBefore)
    && deadlineReached == DeadlineSeen(w, p, checks) && Answered(w, log) && Watched(w, p, log, checks)
    && (p.apply && !deadlineReached ==> forall d | d in log :: !d.handling.ONLY_COUNTED?)
    && (!p.apply ==> forall d | d in log :: d.handling.ONLY_COUNTED?)
  }

  /** One row of a page, after the check of the clock. */
  method HandleRow(row: Row, p: Plan, expired: bool, outcome: Outcome, t: Tally) returns (after: Tally, ghost handling: Handling)
    ensures after == Counted(t, Deed(row, handling), p.replayBefore)
    ensures !p.apply || expired ==> after == Counted(t, Deed(row, ONLY_COUNTED), p.replayBefore)
    ensures handling.ONLY_COUNTED? <==> !p.apply || expired
    ensures Proper(Deed(row, handling), t.pruned, t.receiptRetired, p.limits, p.replayBefore)
    ensures handling.TRIED? ==> handling.outcome == outcome
  {
    after := t.(scanned := t.scanned + 1, reasons := Increment(t.reasons, row.reason));
    if !p.apply || expired {
      return after, ONLY_COUNTED;
    }
    if row.reason.ELIGIBLE? {
      after := after.(pruneCandidates := after.pruneCandidates + 1);
    }
    var receiptDue := ReceiptDue(row, p.replayBefore);
    if receiptDue {
      after := after.(receiptCandidates := after.receiptCandidates + 1);
    }
    handling := if row.reason.ELIGIBLE? || receiptDue then CAPPED else NOTHING_DUE;
    if row.reason.ELIGIBLE? && after.pruned < p.limits.maxPrune {
      handling := TRIED(outcome);
      if outcome.DONE? {
        after := after.(pruned := after.pruned + 1);
      } else {
        after := after.(blocked := Increment(after.blocked, PruneBlock(outcome.code)));
      }
    } else if receiptDue && after.receiptRetired < p.limits.maxReceiptRetire {
      handling := TRIED(outcome);
      if outcome.DONE? {
        after := after.(receiptRetired := after.receiptRetired + 1);
      } else {
        after := after.(blocked := Increment(after.blocked, ReceiptBlock(outcome.code)));
      }
    }
  }

  lemma MoreChecks(w: World, p: Plan, checks: nat)
    ensures DeadlineSeen(w, p, checks + 1) <==> DeadlineSeen(w, p, checks) || w.nowMs(checks) >= p.deadlineAt
  {
    if DeadlineSeen(w, p, checks) {
      var k: nat :| k < checks && w.nowMs(k) >= p.deadlineAt;
      assert k < checks + 1;
    }
  }

  lemma OneMoreDeed(w: World, p: Plan, t: Tally, log: seq<Deed>, checks: nat, d: Deed, used: nat)
    requires Scanning(w, p, t, log, checks, DeadlineSeen(w, p, checks)) && checks <= used
    requires DeadlineSeen(w, p, checks) ==> DeadlineSeen(w, p, used)
    requires Proper(d, t.pruned, t.receiptRetired, p.limits, p.replayBefore)
    requires !p.apply ==> d.handling.ONLY_COUNTED?
    requires d.handling.TRIED? ==> d.handling.outcome == w.attempt(t.scanned)
    requires p.apply && d.handling.ONLY_COUNTED? ==> DeadlineSeen(w, p, used)
    requires p.apply ==> used == checks + 1 && (d.handling.ONLY_COUNTED? <==> w.nowMs(checks) >= p.deadlineAt)
    ensures Scanning(w, p, Counted(t, d, p.replayBefore), log + [d], used, DeadlineSeen(w, p, used))
  {
    CountedCounts(t, log, d, p.replayBefore);
    assert (log + [d])[..|log + [d]| - 1] == log;
    if p.apply {
      WatchedOnce(w, p, log, checks, d);
    }
  }

  lemma RowsGoOn(log: seq<Deed>, d: Deed, rows: seq<Row>, page: seq<Row>, i: nat)
    requires i < |page| && d.row == page[i] && RowsOf(log) == rows + page[..i]
    ensures RowsOf(log + [d]) == rows + page[..i + 1]
  {
    assert RowsOf(log + [d]) == RowsOf(log) + [d.row];
    assert page[..i + 1] == page[..i] + [page[i]];
  }

  /** One page: every row is counted, and handled as far as the deadline and the limits allow. */
  method ScanPage(w: World, p: Plan, page: seq<Row>, t: Tally, ghost log: seq<Deed>, checks: nat, deadlineReached: bool)
    returns (after: Tally, ghost longer: seq<Deed>, used: nat, reached: bool)
    requires Scanning(w, p, t, log, checks, deadlineReached)
    ensures Scanning(w, p, after, longer, used, reached)
    ensures RowsOf(longer) == RowsOf(log) + page && used >= checks && after.scanned == t.scanned + |page|
  {
    after, longer, used, reached := t, log, checks, deadlineReached;
    var i := 0;
    while i < |page|
      invariant 0 <= i <= |page| && used >= checks
      invariant Scanning(w, p, after, longer, used, reached)
      invariant RowsOf(longer) == RowsOf(log) + page[..i]
    {
      ghost var before, checked := after, used;
      var expired := false;
      if p.apply {
        expired := w.nowMs(used) >= p.deadlineAt;
        MoreChecks(w, p, used);
        used := used + 1;
        reached := reached || expired;
      }
      ghost var handling;
      after, handling := HandleRow(page[i], p, expired, w.attempt(after.scanned), after);
      OneMoreDeed(w, p, before, longer, checked, Deed(page[i], handling), used);
      RowsGoOn(longer, Deed(page[i], handling), RowsOf(log), page, i);
      longer := longer + [Deed(page[i], handling)];
      i := i + 1;
    }
    assert page[..|page|] == page;
  }

  const PAGE := 500

  function Min(a: nat, b: nat): nat {
    if a <= b then a else b
  }

  function Length(sweep: Sweep): nat {
    if sweep.From? then 0 else Length(sweep.init) + 1
  }

  /** Each read lists the rows that are due at the time, as many as a page has and the limit still allows. */
  predicate Asked(w: World, p: Plan, sweep: Sweep) {
    sweep.Then? ==>
      && Asked(w, p, sweep.init) && sweep.last.table == w.table(Length(sweep.init))
      && sweep.last.before == p.rawBefore && |Scanned(sweep.init)| < p.limits.maxInventory
      && sweep.last.limit == Min(PAGE, p.limits.maxInventory - |Scanned(sweep.init)|)
  }

  /** The reads follow each other from the cursor and brought exactly the rows of the log. */
  ghost predicate Swept(w: World, p: Plan, from: Option<Cursor>, sweep: Sweep, log: seq<Deed>) {
    Origin(sweep) == from && Chained(sweep) && Asked(w, p, sweep) && Scanned(sweep) == RowsOf(log)
  }

  /** The next page of the loop goes on from the cursor, with what the limit still allows. */
  lemma ReadsOn(w: World, p: Plan, from: Option<Cursor>, sweep: Sweep, log: seq<Deed>, read: Read, longer: seq<Deed>)
    returns (swept: Sweep)
    requires Swept(w, p, from, sweep, log) && |log| < p.limits.maxInventory
    requires sweep.Then? ==> Reached(sweep).Some?
    requires read == Read(w.table(Length(sweep)), p.rawBefore, Reached(sweep), Min(PAGE, p.limits.maxInventory - |log|))
    requires RowsOf(longer) == RowsOf(log) + PageOf(read)
    ensures Swept(w, p, from, swept, longer) && swept.Then?
    ensures |longer| == |log| + |PageOf(read)| && Length(swept) == Length(sweep) + 1
    ensures Reached(swept) == NextOf(read)
  {
    swept := Then(sweep, read);
    assert |RowsOf(longer)| == |RowsOf(log)| + |PageOf(read)|;
  }

  /** The rows of the page that was read are handled, and belong to the sweep. */
  method ScanRead(w: World, p: Plan, ghost from: Option<Cursor>, read: Read, t: Tally, ghost log: seq<Deed>,
                  checks: nat, deadlineReached: bool, ghost sweep: Sweep)
    returns (after: Tally, ghost longer: seq<Deed>, used: nat, reached: bool, ghost swept: Sweep)
    requires Scanning(w, p, t, log, checks, deadlineReached) && Swept(w, p, from, sweep, log)
    requires t.scanned < p.limits.maxInventory && (sweep.Then? ==> Reached(sweep).Some?)
    requires read == Read(w.table(Length(sweep)), p.rawBefore, Reached(sweep), Min(PAGE, p.limits.maxInventory - t.scanned))
    ensures Scanning(w, p, after, longer, used, reached) && Swept(w, p, from, swept, longer)
    ensures after.scanned == t.scanned + |PageOf(read)| && used >= checks
    ensures swept.Then? && Length(swept) == Length(sweep) + 1 && Reached(swept) == NextOf(read)
    ensures after.scanned <= p.limits.maxInventory && (NextOf(read).Some? ==> after.scanned > t.scanned)
  {
    after, longer, used, reached := ScanPage(w, p, PageOf(read), t, log, checks, deadlineReached);
    swept := ReadsOn(w, p, from, sweep, log, read, longer);
  }

  /** The inventory loop; `capped` is `inventoryHasMore`. */
  method ScanInventory(w: World, p: Plan, from: Option<Cursor>)
    returns (t: Tally, cursor: Option<Cursor>, capped: bool, deadlineReached: bool, checks: nat,
             ghost sweep: Sweep, ghost log: seq<Deed>)
    requires p.limits.maxInventory > 0
    ensures Scanning(w, p, t, log, checks, deadlineReached) && Swept(w, p, from, sweep, log)
    ensures cursor == Reached(sweep) && t.scanned <= p.limits.maxInventory
    ensures !deadlineReached ==> sweep.Then? && (capped <==> cursor.Some?)
    ensures capped ==> t.scanned == p.limits.maxInventory
    ensures Turned(w, p, Length(sweep), checks)
  {
    cursor, capped, deadlineReached, checks, t := from, false, false, 0, EMPTY;
    sweep, log := From(from), [];
    NothingWatched(w, p);
    assert Turns(w, p, [], 0);
    var pages := 0;
    while t.scanned < p.limits.maxInventory
      invariant Scanning(w, p, t, log, checks, deadlineReached) && Swept(w, p, from, sweep, log)
      invariant cursor == Reached(sweep) && (sweep.Then? ==> cursor.Some?)
      invariant pages == Length(sweep) && t.scanned <= p.limits.maxInventory
      invariant Turned(w, p, pages, checks)
      invariant capped == (sweep.Then? && t.scanned == p.limits.maxInventory)
      decreases p.limits.maxInventory - t.scanned
    {
      var expired := w.nowMs(checks) >= p.deadlineAt;
      StillScanning(w, p, t, log, checks, deadlineReached);
      ghost var turn := checks;
      checks := checks + 1;
      if expired {
        TurnedOn(w, p, pages, turn);
        deadlineReached := true;
        break;
      }
      var read := Read(w.table(pages), p.rawBefore, cursor, Min(PAGE, p.limits.maxInventory - t.scanned));
      t, log, checks, deadlineReached, sweep := ScanRead(w, p, from, read, t, log, checks, deadlineReached, sweep);
      TurnedOnce(w, p, pages, turn, checks);
      cursor, pages := NextOf(read), pages + 1;
      // An empty page and a short one are the end.
      if cursor.None? {
        break;
      }
      if t.scanned >= p.limits.maxInventory {
        capped := true;
      }
    }
  }

  lemma StillScanning(w: World, p: Plan, t: Tally, log: seq<Deed>, checks: nat, deadlineReached: bool)
    requires Scanning(w, p, t, log, checks, deadlineReached)
    ensures Scanning(w, p, t, log, checks + 1, deadlineReached || w.nowMs(checks) >= p.deadlineAt)
  {
    MoreChecks(w, p, checks);
    WatchedOn(w, p, log, checks, checks + 1);
  }
}
