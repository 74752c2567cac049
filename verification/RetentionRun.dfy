/** One run of the retention maintenance, from its limits to its result. */
module RetentionRun {
  import opened Prelude
  import opened RetentionPages
  import opened RetentionSweep
  import opened RetentionLimits
  import opened RetentionTally
  import opened RetentionScan
  import opened RetentionOutcome

  datatype Kind = INSPECTED | APPLIED | PARTIAL | MISSING_AUTHORITY

  /** The backlogs that the result reports and that decide about the first two loops. */
  datatype Pending = Pending(projection: nat, incident: nat, prunedReceipts: nat, terminal: nat)

  datatype Report = Report(kind: Kind, before: Option<Pending>, after: Option<Pending>,
                           projected: nat, reconciled: nat, pruned: nat, receiptRetired: nat, terminalRetired: nat,
                           scanned: nat, reasons: map<Reason, nat>, nextCursor: Option<Cursor>,
                           blocked: map<Block, nat>, deadlineReached: bool)

  /** The batches of a loop that asks for at most 100 rows at a time. */
  datatype Batches = Nothing | Batch(earlier: Batches, asked: nat, applied: nat)

  function Applied(b: Batches): nat {
    if b.Nothing? then 0 else Applied(b.earlier) + b.applied
  }

  function Calls(b: Batches): nat {
    if b.Nothing? then 0 else Calls(b.earlier) + 1
  }

  /** The first checks of a clock came before the deadline. */
  ghost predicate InTime(nowMs: nat -> int, checks: nat, deadlineAt: int) {
    forall k: nat | k < checks :: nowMs(k) < deadlineAt
  }

  /** Every batch asks for what the limit still allows, after a full one; none brings more than was asked for. */
  predicate InBatches(b: Batches, limit: nat) {
    b.Batch? ==>
      && InBatches(b.earlier, limit) && Applied(b.earlier) < limit
      && b.asked == Min(100, limit - Applied(b.earlier)) && b.applied <= b.asked
      && (b.earlier.Batch? ==> b.earlier.applied == b.earlier.asked)
  }

  /** The last batch brought less than was asked for, so that nothing was left at that moment. */
  predicate Drained(b: Batches) {
    b.Batch? && b.applied < b.asked
  }

  /**
   * The backfill and the reconcile loop have this form. `answer` is what each call applies; the
   * repository never applies more rows than it was asked for.
   */
  method RunBatches(answer: nat -> nat, nowMs: nat -> int, deadlineAt: int, limit: nat)
    returns (done: nat, reached: bool, ghost batches: Batches)
    ensures InBatches(batches, limit) && done == Applied(batches)
    ensures done <= limit
    ensures !reached ==> done == limit || Drained(batches)
    ensures InTime(nowMs, Calls(batches), deadlineAt) && (reached ==> nowMs(Calls(batches)) >= deadlineAt)
  {
    done, reached, batches := 0, false, Nothing;
    var calls := 0;
    while done < limit
      invariant InBatches(batches, limit) && done == Applied(batches) <= limit && !reached
      invariant batches.Batch? ==> batches.applied == batches.asked
      invariant calls == Calls(batches) && InTime(nowMs, calls, deadlineAt)
      decreases limit - done
    {
      if nowMs(calls) >= deadlineAt {
        reached := true;
        break;
      }
      var asked := Min(100, limit - done);
      var applied := Min(answer(calls), asked);
      done, calls, batches := done + applied, calls + 1, Batch(batches, asked, applied);
      if applied < asked {
        break;
      }
    }
  }

  function IsDone(): Outcome -> bool {
    (o: Outcome) => o.DONE?
  }

  function TerminalBlocked(block: Block): Outcome -> bool {
    (o: Outcome) => o.BLOCKED? && block == TerminalBlock(o.code)
  }

  /** The refused tries of the terminal loop, counted on top of those before. */
  ghost predicate BlockedOnTop(before: map<Block, nat>, after: map<Block, nat>, outcomes: seq<Outcome>) {
    && (forall block :: Get(after, block) == Get(before, block) + Count(outcomes, TerminalBlocked(block)))
    && (forall block | block in after :: after[block] > 0)
  }

  lemma OneMoreTried(before: map<Block, nat>, blocked: map<Block, nat>, outcomes: seq<Outcome>, outcome: Outcome)
    requires BlockedOnTop(before, blocked, outcomes)
    ensures BlockedOnTop(before, if outcome.DONE? then blocked else Increment(blocked, TerminalBlock(outcome.code)),
                         outcomes + [outcome])
  {
    forall block
      ensures Count(outcomes + [outcome], TerminalBlocked(block))
           == Count(outcomes, TerminalBlocked(block)) + if TerminalBlocked(block)(outcome) then 1 else 0
    {
      CountSnoc(outcomes, outcome, TerminalBlocked(block));
    }
  }

  /** One candidate more than the limit is asked for, to see whether there are more. */
  method ListTerminals(candidates: seq<string>, limit: nat) returns (items: seq<string>, hasMore: bool)
    ensures |items| == Min(limit, |candidates|) && (hasMore <==> |candidates| > limit)
    ensures forall i | 0 <= i < |items| :: items[i] == candidates[i]
  {
    var rows := candidates[..Min(limit + 1, |candidates|)];
    items, hasMore := rows[..Min(limit, |rows|)], |rows| > limit;
  }

  /** The first candidates have been tried in order, with these counts. */
  ghost predicate Retiring(candidates: seq<string>, attempt: string -> Outcome, before: map<Block, nat>, i: nat,
                           retired: nat, blocked: map<Block, nat>, outcomes: seq<Outcome>)
  {
    && |outcomes| == i <= |candidates| && (forall k | 0 <= k < i :: outcomes[k] == attempt(candidates[k]))
    && retired == Count(outcomes, IsDone()) <= i
    && BlockedOnTop(before, blocked, outcomes)
  }

  lemma RetiresOn(candidates: seq<string>, attempt: string -> Outcome, before: map<Block, nat>, i: nat,
                  retired: nat, blocked: map<Block, nat>, outcomes: seq<Outcome>)
    requires Retiring(candidates, attempt, before, i, retired, blocked, outcomes) && i < |candidates|
    ensures var outcome := attempt(candidates[i]);
            Retiring(candidates, attempt, before, i + 1, if outcome.DONE? then retired + 1 else retired,
                     if outcome.DONE? then blocked else Increment(blocked, TerminalBlock(outcome.code)), outcomes + [outcome])
  {
    var outcome := attempt(candidates[i]);
    CountSnoc(outcomes, outcome, IsDone());
    OneMoreTried(before, blocked, outcomes, outcome);
  }

  /** The terminal candidates are retired one by one until the deadline. */
  method RetireTerminals(candidates: seq<string>, limit: nat, attempt: string -> Outcome, nowMs: nat -> int, deadlineAt: int,
                         before: map<Block, nat>)
    returns (retired: nat, hasMore: bool, reached: bool, blocked: map<Block, nat>, ghost outcomes: seq<Outcome>)
    requires forall block | block in before :: before[block] > 0
    ensures hasMore <==> |candidates| > limit
    ensures |outcomes| <= Min(limit, |candidates|) && (!reached ==> |outcomes| == Min(limit, |candidates|))
    ensures InTime(nowMs, |outcomes|, deadlineAt) && (reached ==> nowMs(|outcomes|) >= deadlineAt)
    ensures forall i | 0 <= i < |outcomes| :: outcomes[i] == attempt(candidates[i])
    ensures retired == Count(outcomes, IsDone()) <= limit
    ensures BlockedOnTop(before, blocked, outcomes)
  {
    var items;
    items, hasMore := ListTerminals(candidates, limit);
    retired, reached, blocked, outcomes := 0, false, before, [];
    var i := 0;
    while i < |items|
      invariant 0 <= i <= |items| && !reached && InTime(nowMs, i, deadlineAt)
      invariant Retiring(candidates, attempt, before, i, retired, blocked, outcomes)
    {
      if nowMs(i) >= deadlineAt {
        reached := true;
        break;
      }
      var outcome := attempt(items[i]);
      RetiresOn(candidates, attempt, before, i, retired, blocked, outcomes);
      if outcome.DONE? {
        retired := retired + 1;
      } else {
        blocked := Increment(blocked, TerminalBlock(outcome.code));
      }
      outcomes := outcomes + [outcome];
      i := i + 1;
    }
  }

  const RAW_PAYLOAD_GRACE := 60 * 60 * 1000
  const REPLAY_RECEIPT_MIN_AGE := 8 * 24 * 60 * 60 * 1000

  /** Everything outside of the run: times, the counts of the backlogs, and the answers of the repository. */
  datatype Environment = Environment(
    ready: bool, started: int, startMs: int, before: Pending, after: Pending,
    backfill: nat -> nat, backfillClock: nat -> int, reconcile: nat -> nat, reconcileClock: nat -> int,
    inventory: World, terminalCheck: int, terminals: seq<string>, retire: string -> Outcome, terminalClock: nat -> int)

  function PlanOf(apply: bool, limits: Limits, env: Environment): Plan {
    Plan(apply, limits, env.startMs + limits.deadlineMs,
         env.started - RAW_PAYLOAD_GRACE, env.started - REPLAY_RECEIPT_MIN_AGE)
  }

  /** A check of one of the first two clocks saw the deadline. */
  ghost predicate BatchLate(p: Plan, env: Environment, backfilled: Batches, reconciled: Batches) {
    p.apply && (env.backfillClock(Calls(backfilled)) >= p.deadlineAt || env.reconcileClock(Calls(reconciled)) >= p.deadlineAt)
  }

  /** What an application has caught up on by its first two loops; an inspection does nothing. */
  ghost predicate CaughtUp(p: Plan, env: Environment, backfilled: Batches, reconciled: Batches) {
    && InBatches(backfilled, p.limits.maxBackfill) && InBatches(reconciled, p.limits.maxReconcile)
    && InTime(env.backfillClock, Calls(backfilled), p.deadlineAt) && InTime(env.reconcileClock, Calls(reconciled), p.deadlineAt)
    && (!p.apply ==> backfilled.Nothing? && reconciled.Nothing?)
  }

  /** The backfill and then the reconcile loop. */
  method CatchUp(p: Plan, env: Environment)
    returns (projected: nat, reconciled: nat, late: bool, ghost backfilled: Batches, ghost reconciledIn: Batches)
    ensures projected <= p.limits.maxBackfill && reconciled <= p.limits.maxReconcile
    ensures !p.apply ==> projected == reconciled == 0 && !late
    ensures CaughtUp(p, env, backfilled, reconciledIn) && projected == Applied(backfilled) && reconciled == Applied(reconciledIn)
    ensures late ==> BatchLate(p, env, backfilled, reconciledIn)
    ensures p.apply && !late ==>
              && (projected == p.limits.maxBackfill || Drained(backfilled))
              && (reconciled == p.limits.maxReconcile || Drained(reconciledIn))
  {
    projected, reconciled, late, backfilled, reconciledIn := 0, 0, false, Nothing, Nothing;
    if p.apply {
      var late1, late2;
      projected, late1, backfilled := RunBatches(env.backfill, env.backfillClock, p.deadlineAt, p.limits.maxBackfill);
      reconciled, late2, reconciledIn := RunBatches(env.reconcile, env.reconcileClock, p.deadlineAt, p.limits.maxReconcile);
      late := late1 || late2;
    }
  }

  /** A check before or in the terminal loop saw the deadline. */
  ghost predicate TerminalLate(p: Plan, env: Environment, outcomes: seq<Outcome>) {
    p.apply && (env.terminalCheck >= p.deadlineAt || env.terminalClock(|outcomes|) >= p.deadlineAt)
  }

  /** The terminal runs that were tried, in order. */
  ghost predicate TriedTerminals(p: Plan, env: Environment, outcomes: seq<Outcome>) {
    && |outcomes| <= |env.terminals|
    && (forall i | 0 <= i < |outcomes| :: outcomes[i] == env.retire(env.terminals[i]))
    && InTime(env.terminalClock, |outcomes|, p.deadlineAt)
    && Count(outcomes, IsDone()) <= p.limits.maxTerminalRetire
    && (!p.apply ==> outcomes == [])
  }

  /** The terminal loop, unless the deadline has come before it. */
  method RetireDue(p: Plan, env: Environment, before: map<Block, nat>)
    returns (retired: nat, hasMore: bool, late: bool, blocked: map<Block, nat>, ghost outcomes: seq<Outcome>)
    requires forall block | block in before :: before[block] > 0
    ensures retired <= p.limits.maxTerminalRetire
    ensures TriedTerminals(p, env, outcomes) && retired == Count(outcomes, IsDone())
    ensures BlockedOnTop(before, blocked, outcomes)
    ensures late ==> TerminalLate(p, env, outcomes)
    ensures p.apply && !late ==>
              && env.terminalCheck < p.deadlineAt && (hasMore <==> |env.terminals| > p.limits.maxTerminalRetire)
              && |outcomes| == Min(p.limits.maxTerminalRetire, |env.terminals|)
  {
    retired, hasMore, late, blocked, outcomes := 0, false, false, before, [];
    if p.apply {
      late := env.terminalCheck >= p.deadlineAt;
      if !late {
        retired, hasMore, late, blocked, outcomes :=
          RetireTerminals(env.terminals, p.limits.maxTerminalRetire, env.retire, env.terminalClock, p.deadlineAt, before);
      }
    }
  }

  /** What really happened, next to what is reported. */
  datatype Trace = Trace(backfilled: Batches, reconciled: Batches, tally: Tally, checks: nat, inventoryLate: bool,
                         sweep: Sweep, log: seq<Deed>, outcomes: seq<Outcome>)

  /** The report tells what happened, within the limits. */
  ghost predicate Truthful(p: Plan, from: Option<Cursor>, env: Environment, r: Report, trace: Trace) {
    && CaughtUp(p, env, trace.backfilled, trace.reconciled)
    && r.projected == Applied(trace.backfilled) && r.reconciled == Applied(trace.reconciled)
    && Scanning(env.inventory, p, trace.tally, trace.log, trace.checks, trace.inventoryLate)
    && Swept(env.inventory, p, from, trace.sweep, trace.log)
    && Turned(env.inventory, p, Length(trace.sweep), trace.checks)
    && r.scanned == trace.tally.scanned <= p.limits.maxInventory && r.reasons == trace.tally.reasons
    && r.pruned == trace.tally.pruned && r.receiptRetired == trace.tally.receiptRetired
    && r.nextCursor == Reached(trace.sweep)
    && TriedTerminals(p, env, trace.outcomes) && r.terminalRetired == Count(trace.outcomes, IsDone())
  }

  /** The counters of refused tries cover the inventory and the terminal runs. */
  ghost predicate BlockedTruthfully(r: Report, trace: Trace) {
    && (forall block :: Get(r.blocked, block)
                     == Count(trace.log, BlockedBy(block)) + Count(trace.outcomes, TerminalBlocked(block)))
    && (forall block | block in r.blocked :: r.blocked[block] > 0)
  }

  /** The deadline is reported only when a check has seen it, and whenever a check about the inventory has. */
  ghost predicate DeadlineTold(p: Plan, env: Environment, r: Report, trace: Trace) {
    && (trace.inventoryLate ==> r.deadlineReached)
    && (r.deadlineReached ==>
          || BatchLate(p, env, trace.backfilled, trace.reconciled) || trace.inventoryLate
          || TerminalLate(p, env, trace.outcomes))
    && (p.apply && !r.deadlineReached ==>
          && env.terminalCheck < p.deadlineAt
          && (r.projected == p.limits.maxBackfill || Drained(trace.backfilled))
          && (r.reconciled == p.limits.maxReconcile || Drained(trace.reconciled)))
  }

  /** Nothing that the run found due is left. */
  ghost predicate Complete(p: Plan, env: Environment, r: Report, trace: Trace) {
    && !r.deadlineReached && r.nextCursor.None? && trace.sweep.Then?
    && AllDone(trace.log, p.replayBefore)
    && |trace.outcomes| == |env.terminals| && (forall o | o in trace.outcomes :: o.DONE?)
    && (r.projected < p.limits.maxBackfill || env.after.projection == 0)
    && (r.reconciled < p.limits.maxReconcile || env.after.incident == 0)
  }

  lemma NoneBlocked(r: Report, trace: Trace)
    requires BlockedTruthfully(r, trace)
    ensures r.blocked == map[] <==>
              (forall d | d in trace.log :: BlockOf(d).None?) && (forall o | o in trace.outcomes :: o.DONE?)
  {
    if r.blocked == map[] {
      forall d | d in trace.log
        ensures BlockOf(d).None?
      {
        if BlockOf(d).Some? {
          assert Get(r.blocked, BlockOf(d).value) == 0;
          CountIsZero(trace.log, BlockedBy(BlockOf(d).value));
        }
      }
      forall o | o in trace.outcomes
        ensures o.DONE?
      {
        if o.BLOCKED? {
          assert Get(r.blocked, TerminalBlock(o.code)) == 0;
          CountIsZero(trace.outcomes, TerminalBlocked(TerminalBlock(o.code)));
        }
      }
    } else {
      var block :| block in r.blocked;
      CountIsZero(trace.log, BlockedBy(block));
      CountIsZero(trace.outcomes, TerminalBlocked(block));
      assert Get(r.blocked, block) > 0;
    }
  }

  /** The test in the source decides completeness. */
  lemma CountersMeanComplete(p: Plan, from: Option<Cursor>, env: Environment, r: Report, trace: Trace, capped: bool)
    requires p.apply && Truthful(p, from, env, r, trace) && BlockedTruthfully(r, trace)
    requires !r.deadlineReached && !trace.inventoryLate
    requires trace.sweep.Then? && (capped <==> r.nextCursor.Some?)
    requires |trace.outcomes| == Min(p.limits.maxTerminalRetire, |env.terminals|)
    ensures Complete(p, env, r, trace) <==>
              && !(r.projected >= p.limits.maxBackfill && env.after.projection > 0)
              && !(r.reconciled >= p.limits.maxReconcile && env.after.incident > 0)
              && trace.tally.pruneCandidates <= r.pruned && trace.tally.receiptCandidates <= r.receiptRetired
              && r.blocked == map[] && !capped && |env.terminals| <= p.limits.maxTerminalRetire
  {
    NoneBlocked(r, trace);
    NothingBlocked(trace.tally, trace.log, p.replayBefore);
    CountersMeanAllDone(trace.tally, trace.log, p.limits, p.replayBefore);
  }

  /** What a run reports in each mode; an inspection does nothing. */
  ghost predicate ReportsKind(p: Plan, env: Environment, r: Report, trace: Trace) {
    && r.before == Some(env.before) && r.after == Some(if p.apply then env.after else env.before)
    && (!p.apply ==>
          && r.kind.INSPECTED? && trace.backfilled.Nothing? && trace.reconciled.Nothing? && trace.outcomes == [])
    && (p.apply ==> r.kind == if Complete(p, env, r, trace) then APPLIED else PARTIAL)
  }

  /** The preflight has failed: nothing is read and nothing is done. */
  function MissingAuthority(): Report {
    Report(MISSING_AUTHORITY, None, None, 0, 0, 0, 0, 0, 0, map[], None, map[], false)
  }

  const NOTHING_DONE := Trace(Nothing, Nothing, EMPTY, 0, false, From(None), [], [])

  lemma BlockedAdds(p: Plan, env: Environment, r: Report, trace: Trace)
    requires Scanning(env.inventory, p, trace.tally, trace.log, trace.checks, trace.inventoryLate)
    requires BlockedOnTop(trace.tally.blocked, r.blocked, trace.outcomes)
    ensures BlockedTruthfully(r, trace)
  {
  }

  /** `runMonitorPilotRetentionMaintenance` after `resolveLimits`. */
  method RunMaintenance(apply: bool, limits: Limits, from: Option<Cursor>, env: Environment)
    returns (r: Report, ghost trace: Trace)
    requires limits.maxInventory > 0
    ensures !env.ready ==> r == MissingAuthority()
    ensures env.ready ==>
              var p := PlanOf(apply, limits, env);
              && Truthful(p, from, env, r, trace) && BlockedTruthfully(r, trace)
              && DeadlineTold(p, env, r, trace) && ReportsKind(p, env, r, trace)
  {
    if !env.ready {
      return MissingAuthority(), NOTHING_DONE;
    }
    var p := PlanOf(apply, limits, env);
    var projected, reconciled, lateBatch, backfilled, reconciledIn := CatchUp(p, env);
    var t, cursor, capped, lateScan, checks;
    ghost var sweep, log;
    t, cursor, capped, lateScan, checks, sweep, log := ScanInventory(env.inventory, p, from);
    WithinLimits(log, limits, p.replayBefore);
    var retired, terminalHasMore, lateTerminal, blocked, outcomes := RetireDue(p, env, t.blocked);
    var after := if apply then env.after else env.before;
    var deadlineReached := lateBatch || lateScan || lateTerminal;
    var cappedBacklog :=
      apply &&
      ((projected >= limits.maxBackfill && after.projection > 0) ||
       (reconciled >= limits.maxReconcile && after.incident > 0) ||
       t.pruneCandidates > t.pruned || t.receiptCandidates > t.receiptRetired || blocked != map[] ||
       capped || terminalHasMore);
    var kind := if !apply then INSPECTED else if deadlineReached || cappedBacklog then PARTIAL else APPLIED;
    r := Report(kind, Some(env.before), Some(after), projected, reconciled, t.pruned, t.receiptRetired, retired,
                t.scanned, t.reasons, cursor, blocked, deadlineReached);
    trace := Trace(backfilled, reconciledIn, t, checks, lateScan, sweep, log, outcomes);
    BlockedAdds(p, env, r, trace);
    if apply && !deadlineReached {
      CountersMeanComplete(p, from, env, r, trace, capped);
    }
  }

  /** In every run the reported counts stay within their limits and add up. */
  lemma ReportsWithinLimits(p: Plan, from: Option<Cursor>, env: Environment, r: Report, trace: Trace)
    requires Truthful(p, from, env, r, trace)
    ensures r.projected <= p.limits.maxBackfill && r.reconciled <= p.limits.maxReconcile
    ensures r.scanned <= p.limits.maxInventory && r.pruned <= p.limits.maxPrune
    ensures r.receiptRetired <= p.limits.maxReceiptRetire && r.terminalRetired <= p.limits.maxTerminalRetire
    ensures SumTo(13, (reason: Reason) => Get(r.reasons, reason)) == r.scanned == |Scanned(trace.sweep)|
  {
    BatchesWithinLimit(trace.backfilled, p.limits.maxBackfill);
    BatchesWithinLimit(trace.reconciled, p.limits.maxReconcile);
    WithinLimits(trace.log, p.limits, p.replayBefore);
    ReasonsAddUp(trace.tally, trace.log, p.replayBefore);
    SumsAgree(13, (reason: Reason) => Get(r.reasons, reason), ReportedFor(trace.tally));
  }

  lemma BatchesWithinLimit(b: Batches, limit: nat)
    requires InBatches(b, limit)
    ensures Applied(b) <= limit
  {
  }
}
