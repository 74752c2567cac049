/** What a maintenance run did with each scanned row, and the counters that it reports. */
module RetentionTally {
  import opened Prelude
  import opened RetentionPages
  import opened RetentionLimits

  datatype Outcome = DONE | BLOCKED(code: string)

  /** A key of the `blocked` counters: `prune:`, `receipt:` or `terminal:` with the reason. */
  datatype Block = PruneBlock(code: string) | ReceiptBlock(code: string) | TerminalBlock(code: string)

  /**
   * The end of a scanned row: only counted because of the mode or the deadline, nothing due, left for
   * the next run by a limit, or tried.
   */
  datatype Handling = ONLY_COUNTED | NOTHING_DUE | CAPPED | TRIED(outcome: Outcome)

  datatype Deed = Deed(row: Row, handling: Handling)

  datatype Tally = Tally(scanned: nat, reasons: map<Reason, nat>, pruneCandidates: nat, receiptCandidates: nat,
                         pruned: nat, receiptRetired: nat, blocked: map<Block, nat>)

  const EMPTY := Tally(0, map[], 0, 0, 0, 0, map[])

  function Get<K>(m: map<K, nat>, key: K): nat {
    if key in m then m[key] else 0
  }

  function Increment<K>(m: map<K, nat>, key: K): map<K, nat> {
    m[key := Get(m, key) + 1]
  }

  /** How many elements have the property. */
  function Count<T>(s: seq<T>, p: T -> bool): nat {
    if s == [] then 0 else Count(s[..|s| - 1], p) + if p(s[|s| - 1]) then 1 else 0
  }

  /** A pruned payload whose receipt is old enough to go as well. */
  predicate ReceiptDue(row: Row, replayBefore: int) {
    && row.reason.ALREADY_PRUNED? && row.payloadPrunedAt.Some?
    && Milliseconds(row.completedAt) <= replayBefore && Milliseconds(row.payloadPrunedAt.value) <= replayBefore
  }

  function HasReason(reason: Reason): Deed -> bool {
    (d: Deed) => d.row.reason == reason
  }

  function PruneCandidate(): Deed -> bool {
    (d: Deed) => d.row.reason.ELIGIBLE? && !d.handling.ONLY_COUNTED?
  }

  function ReceiptCandidate(replayBefore: int): Deed -> bool {
    (d: Deed) => ReceiptDue(d.row, replayBefore) && !d.handling.ONLY_COUNTED?
  }

  function Pruned(): Deed -> bool {
    (d: Deed) => d.row.reason.ELIGIBLE? && d.handling == TRIED(DONE)
  }

  function ReceiptRetired(): Deed -> bool {
    (d: Deed) => !d.row.reason.ELIGIBLE? && d.handling == TRIED(DONE)
  }

  function BlockOf(d: Deed): Option<Block> {
    if !d.handling.TRIED? || d.handling.outcome.DONE? then None
    else if d.row.reason.ELIGIBLE? then Some(PruneBlock(d.handling.outcome.code))
    else Some(ReceiptBlock(d.handling.outcome.code))
  }

  function BlockedBy(block: Block): Deed -> bool {
    (d: Deed) => BlockOf(d) == Some(block)
  }

  /** The counters say exactly what happened. */
  ghost predicate Counts(t: Tally, log: seq<Deed>, replayBefore: int) {
    && t.scanned == |log|
    && (forall reason :: Get(t.reasons, reason) == Count(log, HasReason(reason)))
    && t.pruneCandidates == Count(log, PruneCandidate())
    && t.receiptCandidates == Count(log, ReceiptCandidate(replayBefore))
    && t.pruned == Count(log, Pruned()) && t.receiptRetired == Count(log, ReceiptRetired())
    && (forall block :: Get(t.blocked, block) == Count(log, BlockedBy(block)))
    && (forall block | block in t.blocked :: t.blocked[block] > 0)
  }

  /** Only what is due is tried, below its limit; a limit leaves only what is due. */
  predicate Proper(d: Deed, pruned: nat, retired: nat, limits: Limits, replayBefore: int) {
    match d.handling
    case ONLY_COUNTED => true
    case NOTHING_DUE => !d.row.reason.ELIGIBLE? && !ReceiptDue(d.row, replayBefore)
    case CAPPED =>
      || (d.row.reason.ELIGIBLE? && pruned >= limits.maxPrune)
      || (ReceiptDue(d.row, replayBefore) && retired >= limits.maxReceiptRetire)
    case TRIED(_) =>
      || (d.row.reason.ELIGIBLE? && pruned < limits.maxPrune)
      || (ReceiptDue(d.row, replayBefore) && retired < limits.maxReceiptRetire)
  }

  ghost predicate ProperLog(log: seq<Deed>, limits: Limits, replayBefore: int) {
    log != [] ==>
      var init := log[..|log| - 1];
      && ProperLog(init, limits, replayBefore)
      && Proper(log[|log| - 1], Count(init, Pruned()), Count(init, ReceiptRetired()), limits, replayBefore)
  }

  function RowsOf(log: seq<Deed>): seq<Row> {
    seq(|log|, i requires 0 <= i < |log| => log[i].row)
  }

  lemma CountSnoc<T>(s: seq<T>, last: T, p: T -> bool)
    ensures Count(s + [last], p) == Count(s, p) + if p(last) then 1 else 0
  {
    assert (s + [last])[..|s + [last]| - 1] == s;
  }

  /** The counters after one more row. */
  function Counted(t: Tally, d: Deed, replayBefore: int): Tally {
    var block := BlockOf(d);
    Tally(t.scanned + 1, Increment(t.reasons, d.row.reason),
          t.pruneCandidates + (if PruneCandidate()(d) then 1 else 0),
          t.receiptCandidates + (if ReceiptCandidate(replayBefore)(d) then 1 else 0),
          t.pruned + (if Pruned()(d) then 1 else 0),
          t.receiptRetired + (if ReceiptRetired()(d) then 1 else 0),
          if block.Some? then Increment(t.blocked, block.value) else t.blocked)
  }

  lemma CountedCounts(t: Tally, log: seq<Deed>, d: Deed, replayBefore: int)
    requires Counts(t, log, replayBefore)
    ensures Counts(Counted(t, d, replayBefore), log + [d], replayBefore)
  {
    CountSnoc(log, d, PruneCandidate());
    CountSnoc(log, d, ReceiptCandidate(replayBefore));
    CountSnoc(log, d, Pruned());
    CountSnoc(log, d, ReceiptRetired());
    forall reason
      ensures Get(Increment(t.reasons, d.row.reason), reason) == Count(log + [d], HasReason(reason))
    {
      CountSnoc(log, d, HasReason(reason));
    }
    forall block: Block
      ensures Get(Counted(t, d, replayBefore).blocked, block) == Count(log + [d], BlockedBy(block))
    {
      CountSnoc(log, d, BlockedBy(block));
    }
  }
}
