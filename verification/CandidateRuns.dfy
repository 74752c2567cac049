/** Properties of the candidate store over whole runs of register and update. */
module CandidateRuns {
  import opened Prelude
  import opened CandidateRecords

  datatype Operation =
    | Register(actor: string, proposal: Record, bytesMatch: bool)
    | Update(actor: string, proposal: Record, bytesMatch: bool, review: Option<Review>, proven: bool)

  function Perform(store: Store, op: Operation): Result<Stored> {
    match op
    case Register(actor, proposal, bytesMatch) => Registered(store, actor, proposal, bytesMatch)
    case Update(actor, proposal, bytesMatch, review, proven) =>
      Updated(store, actor, proposal, bytesMatch, review, proven)
  }

  /** A failed operation leaves the store alone. */
  function Apply(store: Store, op: Operation): Store {
    var done := Perform(store, op);
    if done.Ok? then done.value.store else store
  }

  /** The store together with each record as it was first written. */
  datatype Log = Log(store: Store, registered: seq<Record>)

  function Advance(log: Log, op: Operation): Log {
    var store := Apply(log.store, op);
    Log(store, if |store| > |log.store| then log.registered + store[|log.store|..] else log.registered)
  }

  function Run(log: Log, ops: seq<Operation>): Log {
    if ops == [] then log else Advance(Run(log, ops[..|ops| - 1]), ops[|ops| - 1])
  }

  /** A transition to or from READY_FOR_OPERATOR or to WITHDRAWN rests on a matching verdict. */
  predicate Justified(t: Transition, sha: string) {
    && !t.previous.WITHDRAWN?
    && (t.snapshot.Some? ==>
          t.snapshot.value.artifactSha256 == sha && t.snapshot.value.authorRole == t.actor
          && t.snapshot.value.reviewerRole != t.actor)
    && (t.previous != t.next ==>
          && t.snapshot.Some?
          && (t.next.READY_FOR_OPERATOR? <==> t.snapshot.value.verdict == "PASS"))
    && (t.ownerTransfer.Some? ==> t.previous == t.next && t.ownerTransfer.value.0 != t.ownerTransfer.value.1)
  }

  /**
   * The transitions lead, without a gap, from PREPARING and the first owner to the given readiness
   * and owner; each is made by whoever owns the record at that point.
   */
  predicate Path(added: seq<Transition>, sha: string, firstOwner: string, readiness: Readiness, owner: string) {
    if added == [] then readiness.PREPARING? && owner == firstOwner
    else
      var last := added[|added| - 1];
      && last.next == readiness && Justified(last, sha)
      && (last.ownerTransfer.Some? ==> last.ownerTransfer == Some((last.actor, owner)))
      && (last.ownerTransfer.None? ==> last.actor == owner)
      && Path(added[..|added| - 1], sha, firstOwner, last.previous, last.actor)
  }

  /** The snapshot of the latest reviewed transition. */
  function LatestSnapshot(added: seq<Transition>): Option<Snapshot> {
    if added == [] then None
    else if added[|added| - 1].snapshot.Some? then added[|added| - 1].snapshot
    else LatestSnapshot(added[..|added| - 1])
  }

  /** An independent positive review of exactly this artifact, this scope and this acceptance. */
  predicate Endorsed(added: seq<Transition>, r: Record) {
    var latest := LatestSnapshot(added);
    && latest.Some?
    && latest.value.verdict == "PASS"
    && latest.value.artifactSha256 == Digest(r)
    && r.deliveryScope == Some(latest.value.deliveryScope)
    && r.acceptance.Some? && latest.value.acceptance == r.acceptance
    && r.acceptance.value in latest.value.evidence
    && latest.value.authorRole != latest.value.reviewerRole
  }

  /** How a record may differ from what was first written. */
  predicate Descends(first: Record, r: Record) {
    && first.readiness.PREPARING? && first.identity == r.identity
    && Preserves(first.evidenceRefs, r.evidenceRefs) && Preserves(first.checkedScenarios, r.checkedScenarios)
    && History(first) <= History(r)
    && var added := History(r)[|History(first)|..];
       && Path(added, Digest(r), first.role, r.readiness, r.role)
       && (r.readiness.READY_FOR_OPERATOR? ==> Endorsed(added, r))
  }

  predicate Inv(log: Log) {
    && |log.registered| == |log.store|
    && (forall i | 0 <= i < |log.store| :: WellFormed(log.store[i]))
    && (forall i | 0 <= i < |log.store| :: Descends(log.registered[i], log.store[i]))
    && (forall i, j | 0 <= i < j < |log.store| ::
          && Digest(log.store[i]) != Digest(log.store[j])
          && log.store[i].identity.candidateId != log.store[j].identity.candidateId)
  }

  lemma LatestAppend(added: seq<Transition>, t: Transition)
    ensures LatestSnapshot(added + [t]) == if t.snapshot.Some? then t.snapshot else LatestSnapshot(added)
  {
    assert (added + [t])[..|added|] == added;
  }

  lemma PathAppend(added: seq<Transition>, sha: string, firstOwner: string, t: Transition, owner: string)
    requires Path(added, sha, firstOwner, t.previous, t.actor) && Justified(t, sha)
    requires t.ownerTransfer.Some? ==> t.ownerTransfer == Some((t.actor, owner))
    requires t.ownerTransfer.None? ==> t.actor == owner
    ensures Path(added + [t], sha, firstOwner, t.next, owner)
  {
    assert (added + [t])[..|added|] == added;
  }

  /** What a granted review says. */
  lemma JudgedMeaning(
    current: Record, proposal: Record, actor: string, review: Option<Review>, proven: bool, recovery: bool)
    requires Judged(current, proposal, actor, review, proven, recovery).Ok?
    requires proposal.identity == current.identity && !current.readiness.WITHDRAWN?
    ensures var snapshot := Judged(current, proposal, actor, review, proven, recovery).value;
            && (snapshot.Some? ==>
                  && snapshot.value.artifactSha256 == Digest(current)
                  && snapshot.value.authorRole == actor && snapshot.value.reviewerRole != actor
                  && (snapshot.value.verdict == "PASS" <==> proposal.readiness.READY_FOR_OPERATOR?))
            && (snapshot.None? ==> current.readiness == proposal.readiness)
            && (snapshot.None? && proposal.readiness.READY_FOR_OPERATOR? ==> !MaterialChange(current, proposal))
            && (snapshot.Some? && proposal.readiness.READY_FOR_OPERATOR? ==>
                  && proposal.deliveryScope == Some(snapshot.value.deliveryScope)
                  && proposal.acceptance.Some? && snapshot.value.acceptance == proposal.acceptance
                  && proposal.acceptance.value in snapshot.value.evidence)
  {
  }

  /** A successful update in terms of the record it replaces. */
  lemma UpdatedMeaning(
    store: Store, actor: string, proposal: Record, bytesMatch: bool, review: Option<Review>, proven: bool)
    returns (i: nat, recovery: bool, snapshot: Option<Snapshot>)
    requires Updated(store, actor, proposal, bytesMatch, review, proven).Ok?
    ensures i < |store| && actor == store[i].role && proposal.identity == store[i].identity
    ensures Active(store[i]) && WellFormed(proposal)
    ensures proposal.role != store[i].role ==>
              proposal.readiness == store[i].readiness && TransferOnly(store[i], proposal)
    ensures Judged(store[i], proposal, actor, review, proven, recovery) == Ok(snapshot)
    ensures Preserves(store[i].evidenceRefs, proposal.evidenceRefs)
    ensures Preserves(store[i].checkedScenarios, proposal.checkedScenarios)
    ensures Updated(store, actor, proposal, bytesMatch, review, proven).value.store
         == store[i := Revised(store[i], proposal, actor, snapshot)]
    ensures recovery ==>
              && store[i].readiness.PREPARING? && proposal.readiness.WITHDRAWN?
              && Twin(store, i, Digest(store[i])) < |store| && RecoveryOnly(store[i], proposal)
    ensures !recovery ==> Consistent(store)
  {
    i := Find(store, proposal.identity.candidateId);
    recovery := && store[i].readiness.PREPARING? && proposal.readiness.WITHDRAWN?
                && Twin(store, i, Digest(store[i])) < |store|;
    snapshot := Judged(store[i], proposal, actor, review, proven, recovery).value;
  }

  /** The transition that an update appends is justified and made by the owner. */
  lemma RevisedDescends(
    first: Record, current: Record, proposal: Record, actor: string,
    review: Option<Review>, proven: bool, recovery: bool)
    requires Descends(first, current) && Active(current)
    requires actor == current.role && proposal.identity == current.identity
    requires proposal.role != current.role ==>
               proposal.readiness == current.readiness && TransferOnly(current, proposal)
    requires Judged(current, proposal, actor, review, proven, recovery).Ok?
    requires Preserves(current.evidenceRefs, proposal.evidenceRefs)
    requires Preserves(current.checkedScenarios, proposal.checkedScenarios)
    ensures Descends(first, Revised(current, proposal, actor,
                                    Judged(current, proposal, actor, review, proven, recovery).value))
  {
    var snapshot := Judged(current, proposal, actor, review, proven, recovery).value;
    JudgedMeaning(current, proposal, actor, review, proven, recovery);
    var r := Revised(current, proposal, actor, snapshot);
    var added := History(current)[|History(first)|..];
    var transfer := proposal.role != current.role;
    if current.readiness == proposal.readiness && snapshot.None? && !transfer {
      assert History(r) == History(current);
    } else {
      var t := Transition(current.readiness, proposal.readiness, actor, snapshot,
                          if transfer then Some((current.role, proposal.role)) else None);
      assert History(r)[|History(first)|..] == added + [t];
      PathAppend(added, Digest(current), first.role, t, proposal.role);
      LatestAppend(added, t);
    }
  }

  /** A registration that adds a record. */
  lemma RegisteredMeaning(store: Store, actor: string, proposal: Record, bytesMatch: bool)
    requires Registered(store, actor, proposal, bytesMatch).Ok?
    ensures var after := Registered(store, actor, proposal, bytesMatch).value.store;
            || after == store
            || (&& after == store + [proposal] && WellFormed(proposal) && proposal.readiness.PREPARING?
                && forall j | 0 <= j < |store| ::
                     && Digest(store[j]) != Digest(proposal)
                     && store[j].identity.candidateId != proposal.identity.candidateId)
  {
  }

  lemma AppendKeepsInv(log: Log, first: Record)
    requires Inv(log) && WellFormed(first) && first.readiness.PREPARING?
    requires forall j | 0 <= j < |log.store| ::
               && Digest(log.store[j]) != Digest(first)
               && log.store[j].identity.candidateId != first.identity.candidateId
    ensures Inv(Log(log.store + [first], log.registered + [first]))
  {
    assert History(first)[|History(first)|..] == [];
    assert Descends(first, first);
  }

  lemma ReplaceKeepsInv(log: Log, i: nat, r: Record)
    requires Inv(log) && i < |log.store|
    requires WellFormed(r) && r.identity == log.store[i].identity && Descends(log.registered[i], r)
    ensures Inv(Log(log.store[i := r], log.registered))
  {
  }

  lemma RegisterKeepsInv(log: Log, actor: string, proposal: Record, bytesMatch: bool)
    requires Inv(log)
    ensures Inv(Advance(log, Register(actor, proposal, bytesMatch)))
  {
    var done := Registered(log.store, actor, proposal, bytesMatch);
    if done.Ok? {
      RegisteredMeaning(log.store, actor, proposal, bytesMatch);
      if done.value.store != log.store {
        assert done.value.store[|log.store|..] == [proposal];
        AppendKeepsInv(log, proposal);
      }
    }
  }

  lemma UpdateKeepsInv(
    log: Log, actor: string, proposal: Record, bytesMatch: bool, review: Option<Review>, proven: bool)
    requires Inv(log)
    ensures Inv(Advance(log, Update(actor, proposal, bytesMatch, review, proven)))
  {
    if Updated(log.store, actor, proposal, bytesMatch, review, proven).Ok? {
      var i, recovery, snapshot := UpdatedMeaning(log.store, actor, proposal, bytesMatch, review, proven);
      RevisedDescends(log.registered[i], log.store[i], proposal, actor, review, proven, recovery);
      ReplaceKeepsInv(log, i, Revised(log.store[i], proposal, actor, snapshot));
    }
  }

  lemma {:induction false} RunKeepsInv(ops: seq<Operation>)
    ensures Inv(Run(Log([], []), ops))
  {
    if ops != [] {
      var before := Run(Log([], []), ops[..|ops| - 1]);
      RunKeepsInv(ops[..|ops| - 1]);
      match ops[|ops| - 1]
      case Register(actor, proposal, bytesMatch) => RegisterKeepsInv(before, actor, proposal, bytesMatch);
      case Update(actor, proposal, bytesMatch, review, proven) =>
        UpdateKeepsInv(before, actor, proposal, bytesMatch, review, proven);
    }
  }

  /** From an empty store, no artifact ever has two records, active or withdrawn. */
  lemma OneRecordPerArtifact(ops: seq<Operation>, i: nat, j: nat)
    requires i < j < |Run(Log([], []), ops).store|
    ensures Digest(Run(Log([], []), ops).store[i]) != Digest(Run(Log([], []), ops).store[j])
  {
    RunKeepsInv(ops);
  }

  /**
   * From an empty store, the transitions added since a record was registered lead without a gap from
   * PREPARING and its first owner to its present readiness and owner, each made by the owner of that
   * moment and justified by an independent review where readiness changes; its identity is the
   * registered one and its evidence and scenarios have only grown.
   */
  lemma HistoryIsPath(ops: seq<Operation>, i: nat)
    requires i < |Run(Log([], []), ops).store|
    ensures var log := Run(Log([], []), ops);
            |log.registered| == |log.store| && Descends(log.registered[i], log.store[i])
  {
    RunKeepsInv(ops);
  }

  /**
   * From an empty store, a record that is READY_FOR_OPERATOR, by whichever owner, carries as its
   * latest review an independent PASS of exactly its artifact, its scope and its acceptance.
   */
  lemma ReadyIsEndorsed(ops: seq<Operation>, i: nat)
    requires i < |Run(Log([], []), ops).store|
    requires Run(Log([], []), ops).store[i].readiness.READY_FOR_OPERATOR?
    ensures var log := Run(Log([], []), ops);
            && |log.registered| == |log.store|
            && History(log.registered[i]) <= History(log.store[i])
            && Endorsed(History(log.store[i])[|History(log.registered[i])|..], log.store[i])
  {
    RunKeepsInv(ops);
  }

  /** One operation on any store: no record moves, identities stay, and evidence is kept. */
  lemma StepKeepsRecords(store: Store, op: Operation, i: nat)
    requires i < |store|
    ensures |store| <= |Apply(store, op)|
    ensures var r := Apply(store, op)[i];
            && r.identity == store[i].identity
            && Preserves(store[i].evidenceRefs, r.evidenceRefs)
            && Preserves(store[i].checkedScenarios, r.checkedScenarios)
            && History(store[i]) <= History(r)
            && (store[i].readiness.WITHDRAWN? ==> r == store[i])
  {
    if op.Update? && Perform(store, op).Ok? {
      var _, _, _ :=
        UpdatedMeaning(store, op.actor, op.proposal, op.bytesMatch, op.review, op.proven);
    }
  }

  function Replay(store: Store, ops: seq<Operation>): Store {
    if ops == [] then store else Apply(Replay(store, ops[..|ops| - 1]), ops[|ops| - 1])
  }

  /**
   * Over any run from any store, a withdrawn record never changes again, and no record loses
   * evidence, scenarios or history.
   */
  lemma {:induction false} RecordsOnlyGrow(store: Store, ops: seq<Operation>, i: nat)
    requires i < |store|
    ensures |store| <= |Replay(store, ops)|
    ensures var r := Replay(store, ops)[i];
            && r.identity == store[i].identity
            && Preserves(store[i].evidenceRefs, r.evidenceRefs)
            && Preserves(store[i].checkedScenarios, r.checkedScenarios)
            && History(store[i]) <= History(r)
            && (store[i].readiness.WITHDRAWN? ==> r == store[i])
  {
    if ops != [] {
      RecordsOnlyGrow(store, ops[..|ops| - 1], i);
      StepKeepsRecords(Replay(store, ops[..|ops| - 1]), ops[|ops| - 1], i);
    }
  }

  predicate HasActive(store: Store, sha: string) {
    exists i | 0 <= i < |store| :: Active(store[i]) && Digest(store[i]) == sha
  }

  predicate HasWithdrawn(store: Store, sha: string) {
    exists i | 0 <= i < |store| :: !Active(store[i]) && Digest(store[i]) == sha
  }

  /** Once withdrawn, an artifact that has no active record never has one again. */
  lemma {:induction false} WithdrawnStaysOut(store: Store, ops: seq<Operation>, sha: string)
    requires HasWithdrawn(store, sha) && !HasActive(store, sha)
    ensures HasWithdrawn(Replay(store, ops), sha) && !HasActive(Replay(store, ops), sha)
  {
    if ops != [] {
      var before := Replay(store, ops[..|ops| - 1]);
      WithdrawnStaysOut(store, ops[..|ops| - 1], sha);
      WithdrawnStaysOutStep(before, ops[|ops| - 1], sha);
    }
  }

  lemma WithdrawnStaysOutStep(store: Store, op: Operation, sha: string)
    requires HasWithdrawn(store, sha) && !HasActive(store, sha)
    ensures HasWithdrawn(Apply(store, op), sha) && !HasActive(Apply(store, op), sha)
  {
    var k :| 0 <= k < |store| && !Active(store[k]) && Digest(store[k]) == sha;
    StepKeepsRecords(store, op, k);
    assert !Active(Apply(store, op)[k]);
    match op
    case Register(actor, proposal, bytesMatch) => RegisterAddsOther(store, actor, proposal, bytesMatch, sha);
    case Update(actor, proposal, bytesMatch, review, proven) =>
      UpdateKeepsDigests(store, actor, proposal, bytesMatch, review, proven, sha);
  }

  lemma RegisterAddsOther(store: Store, actor: string, proposal: Record, bytesMatch: bool, sha: string)
    requires HasWithdrawn(store, sha) && !HasActive(store, sha)
    ensures var done := Registered(store, actor, proposal, bytesMatch); done.Ok? ==> !HasActive(done.value.store, sha)
  {
    if Registered(store, actor, proposal, bytesMatch).Ok? {
      RegisteredMeaning(store, actor, proposal, bytesMatch);
    }
  }

  lemma UpdateKeepsDigests(store: Store, actor: string, proposal: Record, bytesMatch: bool, review: Option<Review>,
                           proven: bool, sha: string)
    requires !HasActive(store, sha)
    ensures var done := Updated(store, actor, proposal, bytesMatch, review, proven);
            done.Ok? ==> !HasActive(done.value.store, sha)
  {
    if Updated(store, actor, proposal, bytesMatch, review, proven).Ok? {
      var i, _, _ := UpdatedMeaning(store, actor, proposal, bytesMatch, review, proven);
      assert Digest(store[i]) != sha;
    }
  }

  /**
   * A store that already holds duplicates, written around the tool, fails closed: the only operation
   * that succeeds on it withdraws a PREPARING record that has an active twin, changing nothing else
   * but its scope; and every artifact with an active record keeps one.
   */
  lemma DuplicatesFailClosed(store: Store, op: Operation)
    requires !Consistent(store)
    ensures op.Register? ==> Perform(store, op).Err?
    ensures Perform(store, op).Ok? ==>
              exists i | 0 <= i < |store| ::
                && store[i].readiness.PREPARING? && op.proposal.readiness.WITHDRAWN?
                && RecoveryOnly(store[i], op.proposal)
                && Twin(store, i, Digest(store[i])) < |store|
                && |Apply(store, op)| == |store| && Apply(store, op)[i].readiness.WITHDRAWN?
                && forall j | 0 <= j < |store| && j != i :: Apply(store, op)[j] == store[j]
    ensures forall sha :: HasActive(store, sha) ==> HasActive(Apply(store, op), sha)
  {
    if op.Update? && Perform(store, op).Ok? {
      var i, recovery, snapshot := UpdatedMeaning(store, op.actor, op.proposal, op.bytesMatch, op.review, op.proven);
      var after := Apply(store, op);
      assert recovery && after[i].readiness.WITHDRAWN?;
      var twin := Twin(store, i, Digest(store[i]));
      forall sha | HasActive(store, sha)
        ensures HasActive(after, sha)
      {
        var k :| 0 <= k < |store| && Active(store[k]) && Digest(store[k]) == sha;
        assert after[twin] == store[twin];
        assert k != i ==> after[k] == store[k];
      }
    }
  }
}
