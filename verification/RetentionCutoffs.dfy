/** The cutoffs and the deadline of a run, in numbers. */
module RetentionCutoffs {
  // All times but those in rows are whole milliseconds; rows have microseconds.

  import opened Prelude
  import opened RetentionPages
  import opened RetentionSweep
  import opened RetentionLimits
  import opened RetentionTally
  import opened RetentionScan
  import opened RetentionOutcome
  import opened RetentionRun

  const HOUR_MS := 3_600_000
  const EIGHT_DAYS_MS := 691_200_000

  /** Completed at least this many milliseconds before the start of the run. */
  predicate OlderThan(row: Row, started: int, age: int) {
    row.completedAt <= (started - age) * 1000
  }

  lemma {:induction false} AskedAreOld(w: World, p: Plan, sweep: Sweep, row: Row)
    requires Asked(w, p, sweep) && row in Scanned(sweep)
    ensures row.completedAt <= p.rawBefore * 1000
  {
    if sweep.Then? && row in PageOf(sweep.last) {
      PagesLieBeyond(sweep.last, row);
      assert row in Listed(sweep.last.table, sweep.last.before, sweep.last.cursor);
    } else if sweep.Then? {
      AskedAreOld(w, p, sweep.init, row);
    }
  }

  /** Only rows that were completed at least an hour before the start are scanned. */
  lemma ScannedAreOld(apply: bool, limits: Limits, env: Environment, from: Option<Cursor>, r: Report, trace: Trace, row: Row)
    requires Truthful(PlanOf(apply, limits, env), from, env, r, trace) && row in Scanned(trace.sweep)
    ensures OlderThan(row, env.started, HOUR_MS)
  {
    AskedAreOld(env.inventory, PlanOf(apply, limits, env), trace.sweep, row);
  }

  /** A page that is not cut short by its limit has every row of at least that age behind its cursor. */
  lemma {:induction false} OldAreListed(apply: bool, limits: Limits, env: Environment, sweep: Sweep, row: Row)
    requires Asked(env.inventory, PlanOf(apply, limits, env), sweep) && sweep.Then?
    requires row in sweep.last.table && OlderThan(row, env.started, HOUR_MS) && Beyond(row, sweep.last.cursor)
    ensures row in PageOf(sweep.last) || |PageOf(sweep.last)| == sweep.last.limit
  {
    OldIsDue(env.inventory, PlanOf(apply, limits, env), sweep, row);
  }

  lemma OldIsDue(w: World, p: Plan, sweep: Sweep, row: Row)
    requires Asked(w, p, sweep) && sweep.Then?
    requires row in sweep.last.table && row.completedAt <= p.rawBefore * 1000 && Beyond(row, sweep.last.cursor)
    ensures row in Listed(sweep.last.table, sweep.last.before, sweep.last.cursor)
  {
  }

  /** A row of at least that age that the limit leaves out lies behind the last row of the page. */
  lemma OldLiesAhead(apply: bool, limits: Limits, env: Environment, sweep: Sweep, row: Row)
    requires Asked(env.inventory, PlanOf(apply, limits, env), sweep) && sweep.Then? && Ordered(sweep.last.table)
    requires row in sweep.last.table && OlderThan(row, env.started, HOUR_MS) && Beyond(row, sweep.last.cursor)
    requires row !in PageOf(sweep.last)
    ensures PageOf(sweep.last) != [] && Before(LastOf(sweep.last).completedAt, LastOf(sweep.last).runId, row)
  {
    OldIsDue(env.inventory, PlanOf(apply, limits, env), sweep, row);
    LeftOutLiesBeyond(sweep.last, row);
  }

  /** A receipt is retired only when its row was completed, and its payload pruned, eight days before the start. */
  lemma ReceiptsAreKept(apply: bool, limits: Limits, env: Environment, from: Option<Cursor>, r: Report, trace: Trace, d: Deed)
    requires Truthful(PlanOf(apply, limits, env), from, env, r, trace) && d in trace.log
    requires d.handling.TRIED? && !d.row.reason.ELIGIBLE?
    ensures d.row.reason.ALREADY_PRUNED? && d.row.payloadPrunedAt.Some?
    ensures d.row.completedAt < (env.started - EIGHT_DAYS_MS + 1) * 1000
    ensures d.row.payloadPrunedAt.value < (env.started - EIGHT_DAYS_MS + 1) * 1000
  {
    WithinLimits(trace.log, limits, PlanOf(apply, limits, env).replayBefore);
  }

  /** One that is due is tried unless only counted, or left by a limit that was reached before. */
  lemma {:induction false} DueIsTried(limits: Limits, replayBefore: int, log: seq<Deed>, i: nat)
    requires ProperLog(log, limits, replayBefore) && i < |log| && !log[i].handling.ONLY_COUNTED?
    requires log[i].row.reason.ALREADY_PRUNED? && log[i].row.payloadPrunedAt.Some?
    requires log[i].row.completedAt < (replayBefore + 1) * 1000
    requires log[i].row.payloadPrunedAt.value < (replayBefore + 1) * 1000
    ensures log[i].handling.TRIED? || Count(log[..i], ReceiptRetired()) >= limits.maxReceiptRetire
    decreases |log|
  {
    if i < |log| - 1 {
      var init := log[..|log| - 1];
      assert init[i] == log[i] && init[..i] == log[..i];
      DueIsTried(limits, replayBefore, init, i);
    }
  }

  /** An eligible payload is tried unless only counted, or left by the limit that was reached before. */
  lemma {:induction false} EligibleIsTried(limits: Limits, replayBefore: int, log: seq<Deed>, i: nat)
    requires ProperLog(log, limits, replayBefore) && i < |log| && !log[i].handling.ONLY_COUNTED?
    requires log[i].row.reason.ELIGIBLE?
    ensures log[i].handling.TRIED? <==> Count(log[..i], Pruned()) < limits.maxPrune
    decreases |log|
  {
    if i < |log| - 1 {
      var init := log[..|log| - 1];
      assert init[i] == log[i] && init[..i] == log[..i];
      EligibleIsTried(limits, replayBefore, init, i);
    }
  }

  /** In an application that the deadline does not cut short the first eligible payloads, up to the limit, are tried. */
  lemma PayloadsGo(apply: bool, limits: Limits, env: Environment, from: Option<Cursor>, r: Report, trace: Trace, i: nat)
    requires Truthful(PlanOf(apply, limits, env), from, env, r, trace) && i < |trace.log|
    requires trace.log[i].row.reason.ELIGIBLE? && apply && !trace.inventoryLate
    ensures trace.log[i].handling.TRIED? <==> Count(trace.log[..i], Pruned()) < limits.maxPrune
    ensures trace.log[i].handling.TRIED? ==> trace.log[i].handling.outcome == env.inventory.attempt(i)
  {
    assert trace.log[i] in trace.log;
    EligibleIsTried(limits, env.started - EIGHT_DAYS_MS, trace.log, i);
  }

  /** No page is longer than 500 rows, and none is read once the limit has been reached. */
  lemma {:induction false} PagesAreShort(w: World, p: Plan, sweep: Sweep)
    requires Asked(w, p, sweep) && sweep.Then?
    ensures |PageOf(sweep.last)| <= 500 && |Scanned(sweep.init)| < p.limits.maxInventory
    ensures |Scanned(sweep)| <= p.limits.maxInventory
  {
    assert |Scanned(sweep)| == |Scanned(sweep.init)| + |PageOf(sweep.last)|;
  }

  lemma ReceiptsGo(apply: bool, limits: Limits, env: Environment, from: Option<Cursor>, r: Report, trace: Trace, i: nat)
    requires Truthful(PlanOf(apply, limits, env), from, env, r, trace) && i < |trace.log|
    requires var row := trace.log[i].row;
             && row.reason.ALREADY_PRUNED? && row.payloadPrunedAt.Some?
             && row.completedAt < (env.started - EIGHT_DAYS_MS + 1) * 1000
             && row.payloadPrunedAt.value < (env.started - EIGHT_DAYS_MS + 1) * 1000
    requires apply && !trace.inventoryLate
    ensures trace.log[i].handling.TRIED? || Count(trace.log[..i], ReceiptRetired()) >= limits.maxReceiptRetire
  {
    assert trace.log[i] in trace.log;
    DueIsTried(limits, env.started - EIGHT_DAYS_MS, trace.log, i);
  }

  /** The deadline that a report tells of is the start and the given number of milliseconds. */
  lemma DeadlineIs(apply: bool, limits: Limits, env: Environment, from: Option<Cursor>, r: Report, trace: Trace)
    requires var p := PlanOf(apply, limits, env); Truthful(p, from, env, r, trace) && DeadlineTold(p, env, r, trace)
    ensures var deadline := env.startMs + limits.deadlineMs;
            && (trace.inventoryLate <==> exists k: nat :: k < trace.checks && env.inventory.nowMs(k) >= deadline)
            && (r.deadlineReached ==>
                  || trace.inventoryLate
                  || (apply && (|| env.backfillClock(Calls(trace.backfilled)) >= deadline
                                || env.reconcileClock(Calls(trace.reconciled)) >= deadline
                                || env.terminalCheck >= deadline || env.terminalClock(|trace.outcomes|) >= deadline)))
            && (apply && !r.deadlineReached ==> env.terminalCheck < deadline && !trace.inventoryLate)
            && (forall k: nat | k < Calls(trace.backfilled) :: env.backfillClock(k) < deadline)
            && (forall k: nat | k < Calls(trace.reconciled) :: env.reconcileClock(k) < deadline)
            && (forall k: nat | k < |trace.outcomes| :: env.terminalClock(k) < deadline)
  {
  }

  /** Without authority nothing is done or reported. */
  lemma NothingWithoutAuthority(r: Report)
    requires r == MissingAuthority()
    ensures r.kind.MISSING_AUTHORITY? && r.before.None? && r.after.None? && r.nextCursor.None?
    ensures r.projected == r.reconciled == r.pruned == r.receiptRetired == r.terminalRetired == r.scanned == 0
    ensures r.reasons == map[] && r.blocked == map[] && !r.deadlineReached
  {
  }

  /** Each page that was read had a check of its own that came before the deadline. */
  lemma PagesAreTimed(apply: bool, limits: Limits, env: Environment, from: Option<Cursor>, r: Report, trace: Trace)
    returns (turns: seq<nat>)
    requires Truthful(PlanOf(apply, limits, env), from, env, r, trace)
    ensures |turns| == Length(trace.sweep) && forall i, j | 0 <= i < j < |turns| :: turns[i] < turns[j]
    ensures forall k | 0 <= k < |turns| :: env.inventory.nowMs(turns[k]) < env.startMs + limits.deadlineMs
  {
    turns :| |turns| == Length(trace.sweep) && Turns(env.inventory, PlanOf(apply, limits, env), turns, trace.checks);
  }

  /** Once the clock of an application has passed the deadline at a row, no later row is tried. */
  lemma NothingAfterDeadline(apply: bool, limits: Limits, env: Environment, from: Option<Cursor>, r: Report, trace: Trace, i: nat, j: nat)
    requires Truthful(PlanOf(apply, limits, env), from, env, r, trace) && apply
    requires forall k: nat, l: nat | k < l :: env.inventory.nowMs(k) <= env.inventory.nowMs(l)
    requires i < j < |trace.log| && trace.log[i].handling.ONLY_COUNTED?
    ensures trace.log[j].handling.ONLY_COUNTED?
  {
    LaterIsOnlyCounted(env.inventory, PlanOf(apply, limits, env), trace.log, trace.checks, i, j);
  }

  lemma LaterIsOnlyCounted(w: World, p: Plan, log: seq<Deed>, checks: nat, i: nat, j: nat)
    requires Watched(w, p, log, checks) && p.apply
    requires forall k: nat, l: nat | k < l :: w.nowMs(k) <= w.nowMs(l)
    requires i < j < |log| && log[i].handling.ONLY_COUNTED?
    ensures log[j].handling.ONLY_COUNTED?
  {
    var clocks :| Timed(w, p, log, clocks, checks);
    assert clocks[i] < clocks[j];
  }

  /** A row is only counted exactly when a check for it saw the deadline, and each row of an application has its own. */
  lemma RowsAreTimed(apply: bool, limits: Limits, env: Environment, from: Option<Cursor>, r: Report, trace: Trace)
    returns (clocks: seq<nat>)
    requires Truthful(PlanOf(apply, limits, env), from, env, r, trace) && apply
    ensures |clocks| == |trace.log| && forall i, j | 0 <= i < j < |clocks| :: clocks[i] < clocks[j]
    ensures forall k | 0 <= k < |clocks| ::
              trace.log[k].handling.ONLY_COUNTED? <==> env.inventory.nowMs(clocks[k]) >= env.startMs + limits.deadlineMs
  {
    clocks :| Timed(env.inventory, PlanOf(apply, limits, env), trace.log, clocks, trace.checks);
  }

  /** What a run does stays within the limits that were given for it, and an inspection does nothing. */
  lemma LimitsKept(apply: bool, limits: Limits, env: Environment, from: Option<Cursor>, r: Report, trace: Trace)
    requires var p := PlanOf(apply, limits, env); Truthful(p, from, env, r, trace) && ReportsKind(p, env, r, trace)
    ensures r.projected <= limits.maxBackfill && r.reconciled <= limits.maxReconcile && r.scanned <= limits.maxInventory
    ensures r.pruned <= limits.maxPrune && r.receiptRetired <= limits.maxReceiptRetire
    ensures r.terminalRetired <= limits.maxTerminalRetire
    ensures !apply ==>
              && r.kind.INSPECTED?
              && r.projected == r.reconciled == r.pruned == r.receiptRetired == r.terminalRetired == 0
    ensures apply ==> r.kind.APPLIED? || r.kind.PARTIAL?
  {
    var p := PlanOf(apply, limits, env);
    ReportsWithinLimits(p, from, env, r, trace);
    if !apply {
      CountIsZero(trace.log, Pruned());
      CountIsZero(trace.log, ReceiptRetired());
    }
  }
}
