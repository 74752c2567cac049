/** What the counters of a maintenance run imply about the rows that it scanned. */
module RetentionOutcome {
  import opened Prelude
  import opened RetentionPages
  import opened RetentionLimits
  import opened RetentionTally

  /** Everything that was due has been done. */
  ghost predicate AllDone(log: seq<Deed>, replayBefore: int) {
    forall d | d in log ::
      && !d.handling.ONLY_COUNTED?
      && (d.row.reason.ELIGIBLE? || ReceiptDue(d.row, replayBefore) ==> d.handling == TRIED(DONE))
  }

  lemma {:induction false} CountCompares<T>(s: seq<T>, p: T -> bool, q: T -> bool)
    requires forall x | x in s :: q(x) ==> p(x)
    ensures Count(s, q) <= Count(s, p)
    ensures Count(s, q) == Count(s, p) <==> forall x | x in s :: p(x) ==> q(x)
  {
    if s != [] {
      var init, last := s[..|s| - 1], s[|s| - 1];
      assert s == init + [last];
      CountCompares(init, p, q);
    }
  }

  lemma {:induction false} CountIsZero<T>(s: seq<T>, p: T -> bool)
    ensures Count(s, p) == 0 <==> forall x | x in s :: !p(x)
  {
    if s != [] {
      var init, last := s[..|s| - 1], s[|s| - 1];
      assert s == init + [last];
      CountIsZero(init, p);
    }
  }

  /** Only eligible payloads are pruned and only due receipts are retired, each within its limit. */
  lemma {:induction false} WithinLimits(log: seq<Deed>, limits: Limits, replayBefore: int)
    requires ProperLog(log, limits, replayBefore)
    ensures Count(log, Pruned()) <= limits.maxPrune && Count(log, ReceiptRetired()) <= limits.maxReceiptRetire
    ensures forall d | d in log ::
              && (d.handling.TRIED? ==> d.row.reason.ELIGIBLE? || ReceiptDue(d.row, replayBefore))
              && (d.row.reason.ELIGIBLE? || ReceiptDue(d.row, replayBefore) ==> !d.handling.NOTHING_DUE?)
  {
    if log != [] {
      var init, last := log[..|log| - 1], log[|log| - 1];
      assert log == init + [last];
      WithinLimits(init, limits, replayBefore);
    }
  }

  /** Nothing is blocked exactly when no try was refused. */
  lemma NothingBlocked(t: Tally, log: seq<Deed>, replayBefore: int)
    requires Counts(t, log, replayBefore)
    ensures t.blocked == map[] <==> forall d | d in log :: BlockOf(d).None?
  {
    if t.blocked == map[] {
      forall d | d in log
        ensures BlockOf(d).None?
      {
        if BlockOf(d).Some? {
          assert Get(t.blocked, BlockOf(d).value) == 0;
          CountIsZero(log, BlockedBy(BlockOf(d).value));
        }
      }
    } else if forall d | d in log :: BlockOf(d).None? {
      var block :| block in t.blocked;
      CountIsZero(log, BlockedBy(block));
      assert false;
    }
  }

  /** The test of the counters in the source means that all rows that were due are done. */
  lemma CountersMeanAllDone(t: Tally, log: seq<Deed>, limits: Limits, replayBefore: int)
    requires Counts(t, log, replayBefore) && ProperLog(log, limits, replayBefore)
    requires forall d | d in log :: !d.handling.ONLY_COUNTED?
    ensures (t.pruneCandidates <= t.pruned && t.receiptCandidates <= t.receiptRetired && t.blocked == map[])
       <==> AllDone(log, replayBefore)
  {
    WithinLimits(log, limits, replayBefore);
    CountCompares(log, PruneCandidate(), Pruned());
    CountCompares(log, ReceiptCandidate(replayBefore), ReceiptRetired());
    NothingBlocked(t, log, replayBefore);
    if AllDone(log, replayBefore) {
      forall d | d in log
        ensures PruneCandidate()(d) ==> Pruned()(d)
        ensures ReceiptCandidate(replayBefore)(d) ==> ReceiptRetired()(d)
        ensures BlockOf(d).None?
      {
      }
    }
  }

  function IndexOf(reason: Reason): nat {
    match reason
    case ELIGIBLE => 0
    case ALREADY_PRUNED => 1
    case PROJECTION_MISSING => 2
    case INCIDENT_PROCESSING_PENDING => 3
    case PAYLOAD_MISSING => 4
    case SCHEDULER_MISSING => 5
    case SCHEDULER_NOT_SUCCEEDED => 6
    case SCHEDULER_LINK_MISMATCH => 7
    case INCIDENT_PINNED => 8
    case NOTIFICATION_PINNED => 9
    case REPAIR_APPROVAL_PINNED => 10
    case ACCEPTED_BASELINE_PINNED => 11
    case RECENT_STATE_PINNED => 12
  }

  /** The sum over the first reasons. */
  ghost function SumTo(n: nat, f: Reason -> nat): nat {
    if n == 0 then 0
    else
      SumTo(n - 1, f) + if exists r :: IndexOf(r) == n - 1 then (var r :| IndexOf(r) == n - 1; f(r)) else 0
  }

  function CountWith(log: seq<Deed>): Reason -> nat {
    (r: Reason) => Count(log, HasReason(r))
  }

  function ReportedFor(t: Tally): Reason -> nat {
    (r: Reason) => Get(t.reasons, r)
  }

  lemma {:induction false} SumGrows(n: nat, f: Reason -> nat, g: Reason -> nat, key: Reason)
    requires forall r :: g(r) == f(r) + if r == key then 1 else 0
    ensures SumTo(n, g) == SumTo(n, f) + if IndexOf(key) < n then 1 else 0
  {
    if n > 0 {
      SumGrows(n - 1, f, g, key);
    }
  }

  lemma {:induction false} SumOfNothing(n: nat)
    ensures SumTo(n, CountWith([])) == 0
  {
    if n > 0 {
      SumOfNothing(n - 1);
    }
  }

  lemma CountsGrow(n: nat, init: seq<Deed>, last: Deed)
    requires forall r :: IndexOf(r) < n
    ensures SumTo(n, CountWith(init + [last])) == SumTo(n, CountWith(init)) + 1
  {
    var f, g := CountWith(init), CountWith(init + [last]);
    forall r: Reason
      ensures g(r) == f(r) + if r == last.row.reason then 1 else 0
    {
      CountSnoc(init, last, HasReason(r));
    }
    SumGrows(n, f, g, last.row.reason);
  }

  lemma LastApart<T>(s: seq<T>)
    requires s != []
    ensures s[..|s| - 1] + [s[|s| - 1]] == s
  {
  }

  lemma {:induction false} SumOfCounts(n: nat, log: seq<Deed>)
    requires forall r :: IndexOf(r) < n
    ensures SumTo(n, CountWith(log)) == |log|
    decreases log
  {
    if log == [] {
      SumOfNothing(n);
    } else {
      var init, last := log[..|log| - 1], log[|log| - 1];
      SumOfCounts(n, init);
      CountsGrow(n, init, last);
      LastApart(log);
    }
  }

  lemma {:induction false} SumsAgree(n: nat, f: Reason -> nat, g: Reason -> nat)
    requires forall r :: f(r) == g(r)
    ensures SumTo(n, f) == SumTo(n, g)
  {
    if n > 0 {
      SumsAgree(n - 1, f, g);
    }
  }

  /** The reported reasons add up to the reported number of scanned rows. */
  lemma ReasonsAddUp(t: Tally, log: seq<Deed>, replayBefore: int)
    requires Counts(t, log, replayBefore)
    ensures SumTo(13, ReportedFor(t)) == t.scanned
  {
    SumOfCounts(13, log);
    SumsAgree(13, ReportedFor(t), CountWith(log));
  }
}
