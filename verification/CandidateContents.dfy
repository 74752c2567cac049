/** What the store accepts and then holds. */
module CandidateContents {
  import opened Prelude
  import opened CandidateRecords
  import opened CandidateRuns
  import opened PythonText

  predicate IsLetterOrDigit(c: char) {
    'A' <= c <= 'Z' || 'a' <= c <= 'z' || '0' <= c <= '9'
  }

  lemma FilledIsStripped(text: string)
    ensures Filled(text) <==> Strip(text) != ""
  {
    StripLeavesText(text);
  }

  /** Up to 160 characters, the first a letter or digit; so no file outside the directory. */
  predicate NamesFile(id: string) {
    && 0 < |id| < 161 && IsLetterOrDigit(id[0])
    && forall i | 0 <= i < |id| :: IsLetterOrDigit(id[i]) || id[i] == '_' || id[i] == '.' || id[i] == '-'
  }

  predicate IsDigest(text: string, length: nat) {
    |text| == length && forall i | 0 <= i < |text| :: '0' <= text[i] <= '9' || 'a' <= text[i] <= 'f'
  }

  lemma IdNamesFile(id: string)
    ensures IsCandidateId(id) <==> NamesFile(id)
  {
  }

  /** What every record that is put into the store has. */
  lemma AcceptedRecords(r: Record)
    ensures WellFormed(r) <==>
              && NamesFile(r.identity.candidateId) && |r.identity.workItemId| > 0
              && (r.role == "A" || r.role == "B" || r.role == "C")
              && IsDigest(r.identity.artifactSha256, 64) && IsDigest(r.identity.sourceSha, 40)
              && Strip(r.identity.version) != "" && Strip(r.identity.browser) != ""
              && Strip(r.identity.environment) != "" && Strip(r.identity.artifactPath) != ""
              && r.identity.artifactBytes >= 1
  {
    IdNamesFile(r.identity.candidateId);
    FilledIsStripped(r.identity.version);
    FilledIsStripped(r.identity.browser);
    FilledIsStripped(r.identity.environment);
    FilledIsStripped(r.identity.artifactPath);
  }

  /** A field that a proposal may lack: what it gives, otherwise what was there. */
  predicate Kept<T(==)>(stored: Option<T>, given: Option<T>, before: Option<T>) {
    (given.Some? ==> stored == given) && (given.None? ==> stored == before)
  }

  /** The stored record has every field as the proposal gives it, and the earlier value of a field it lacks. */
  predicate Holds(stored: Record, proposal: Record, before: Record) {
    && stored.identity == proposal.identity && stored.role == proposal.role
    && stored.readiness == proposal.readiness && stored.evidenceRefs == proposal.evidenceRefs
    && stored.checkedScenarios == proposal.checkedScenarios && stored.limitations == proposal.limitations
    && Kept(stored.deliveryScope, proposal.deliveryScope, before.deliveryScope)
    && Kept(stored.backend, proposal.backend, before.backend)
    && Kept(stored.acceptance, proposal.acceptance, before.acceptance)
    && Kept(stored.fixes, proposal.fixes, before.fixes)
    && Kept(stored.updatedAt, proposal.updatedAt, before.updatedAt)
    && stored.other.Keys == before.other.Keys + proposal.other.Keys
    && forall key | key in stored.other ::
         stored.other[key] == if key in proposal.other then proposal.other[key] else before.other[key]
  }

  /** One of the six fields that a delivered record may change only under a new review. */
  predicate Changed(before: Record, proposal: Record) {
    !(&& before.deliveryScope == proposal.deliveryScope && before.backend == proposal.backend
      && before.checkedScenarios == proposal.checkedScenarios && before.limitations == proposal.limitations
      && before.acceptance == proposal.acceptance && before.fixes == proposal.fixes)
  }

  /** A withdrawal, a step to or from READY_FOR_OPERATOR, and a change of a delivered record ask for a review. */
  predicate ReviewAsked(before: Record, proposal: Record) {
    || proposal.readiness.WITHDRAWN?
    || (before.readiness.READY_FOR_OPERATOR? && proposal.readiness.PREPARING?)
    || (before.readiness.PREPARING? && proposal.readiness.READY_FOR_OPERATOR?)
    || (before.readiness.READY_FOR_OPERATOR? && proposal.readiness.READY_FOR_OPERATOR? && Changed(before, proposal))
  }

  /** The review is of this very artifact, author and scope, by someone else, with unchanged evidence files. */
  predicate Stands(review: Option<Review>, sha: string, scope: Option<seq<string>>, actor: string) {
    && review.Some? && review.value.artifactSha256 == sha && review.value.authorRole == actor
    && review.value.reviewerRole in ["A", "B", "C", "CONTROLLER", "INDEPENDENT_CODEX"]
    && review.value.reviewerRole != actor
    && scope.Some? && |scope.value| > 0 && review.value.deliveryScope == scope
    && |review.value.evidence| > 0
    && forall ref | ref in review.value.evidence ::
         ref.path in review.value.actual && review.value.actual[ref.path] == ref.sha256
  }

  /** A delivery needs a PASS that lists a proven acceptance; a withdrawal or retreat a FAIL or a rework. */
  predicate Reviewed(
    before: Record, proposal: Record, actor: string, review: Option<Review>, proven: bool, hasTwin: bool)
  {
    if proposal.readiness.READY_FOR_OPERATOR? then
      && Stands(review, proposal.identity.artifactSha256, proposal.deliveryScope, actor)
      && review.value.verdict == "PASS"
      && proposal.acceptance.Some? && proven && proposal.acceptance.value in review.value.evidence
    else
      && Stands(review, before.identity.artifactSha256,
                if hasTwin && before.readiness.PREPARING? then proposal.deliveryScope else before.deliveryScope, actor)
      && (review.value.verdict == "FAIL" || review.value.verdict == "REWORK_REQUIRED")
  }

  /** The fields that neither a transfer nor the withdrawal of a duplicate may touch. */
  predicate SameContents(before: Record, proposal: Record) {
    && proposal.identity == before.identity && proposal.evidenceRefs == before.evidenceRefs
    && proposal.checkedScenarios == before.checkedScenarios && proposal.limitations == before.limitations
    && proposal.backend == before.backend && proposal.acceptance == before.acceptance
    && proposal.fixes == before.fixes && proposal.other == before.other
  }

  /** Another active record has the artifact of the one at `i`. */
  predicate IsTwin(store: Store, i: nat, j: nat)
    requires i < |store|
  {
    j < |store| && j != i && !store[j].readiness.WITHDRAWN?
    && store[j].identity.artifactSha256 == store[i].identity.artifactSha256
  }

  predicate HasTwin(store: Store, i: nat)
    requires i < |store|
  {
    exists j: nat | j < |store| :: IsTwin(store, i, j)
  }

  /** The twin that the search meets first. */
  predicate IsFirstTwin(store: Store, i: nat, j: nat)
    requires i < |store|
  {
    IsTwin(store, i, j) && forall k: nat | k < j :: !IsTwin(store, i, k)
  }

  /** The first record with the identifier is the one at `i`. */
  predicate FileOf(store: Store, id: string, i: nat) {
    && i < |store| && store[i].identity.candidateId == id
    && forall j | 0 <= j < i :: store[j].identity.candidateId != id
  }

  /** A PREPARING record that has a twin may leave although the store has duplicates. */
  predicate LeavesTwin(store: Store, i: nat, proposal: Record)
    requires i < |store|
  {
    store[i].readiness.PREPARING? && proposal.readiness.WITHDRAWN? && HasTwin(store, i)
  }

  /** The owner asks for a change that keeps the identity, and hands the record over only as it is. */
  predicate OwnerAsks(before: Record, proposal: Record, actor: string) {
    && actor == before.role && proposal.identity == before.identity && !before.readiness.WITHDRAWN?
    && (proposal.role != before.role ==>
          && proposal.readiness == before.readiness && SameContents(before, proposal)
          && proposal.deliveryScope == before.deliveryScope
          && (before.history.None? ==> proposal.history.None?))
  }

  /** The store has no duplicates, or the update does nothing but take one away. */
  predicate StoreAllows(store: Store, i: nat, proposal: Record)
    requires i < |store|
  {
    if LeavesTwin(store, i, proposal) then
      && proposal.role == store[i].role && SameContents(store[i], proposal)
      && proposal.updatedAt == store[i].updatedAt && proposal.history == store[i].history
      && forall j: nat | j < |store| ::
           IsFirstTwin(store, i, j) ==> WellFormed(store[j])
    else Consistent(store)
  }

  predicate NothingLost(before: Record, proposal: Record) {
    && (forall x | x in before.evidenceRefs :: x in proposal.evidenceRefs)
    && (forall x | x in before.checkedScenarios :: x in proposal.checkedScenarios)
  }

  lemma FileIsFound(store: Store, id: string, i: nat)
    requires FileOf(store, id, i)
    ensures Find(store, id) == i
  {
  }

  lemma TwinIsFound(store: Store, i: nat)
    requires i < |store|
    ensures HasTwin(store, i) <==> Twin(store, i, Digest(store[i])) < |store|
  {
    var twin := Twin(store, i, Digest(store[i]));
    if twin < |store| {
      assert IsTwin(store, i, twin);
    }
  }

  lemma FirstTwinIsFound(store: Store, i: nat, j: nat)
    requires i < |store| && j < |store|
    ensures IsFirstTwin(store, i, j) <==> j == Twin(store, i, Digest(store[i]))
  {
    var twin := Twin(store, i, Digest(store[i]));
    if twin < |store| {
      assert IsTwin(store, i, twin);
    }
  }

  lemma TransferFields(before: Record, proposal: Record)
    ensures TransferOnly(before, proposal) <==>
              && proposal.readiness == before.readiness && SameContents(before, proposal)
              && proposal.deliveryScope == before.deliveryScope
              && (before.history.None? ==> proposal.history.None?)
  {
  }

  lemma RecoveryFields(before: Record, proposal: Record)
    ensures RecoveryOnly(before, proposal) <==>
              && proposal.role == before.role && SameContents(before, proposal)
              && proposal.updatedAt == before.updatedAt && proposal.history == before.history
  {
  }

  lemma DecisionStands(review: Option<Review>, r: Record, actor: string, verdicts: set<string>)
    ensures Decision(review, r, actor, verdicts).Ok? <==>
              Stands(review, r.identity.artifactSha256, r.deliveryScope, actor) && review.value.verdict in verdicts
    ensures Decision(review, r, actor, verdicts).Ok? ==>
              var v := review.value;
              Decision(review, r, actor, verdicts).value
              == Snapshot(v.verdict, Digest(r), actor, v.reviewerRole, r.deliveryScope.value, v.evidence, None)
  {
  }

  /** What a transition keeps of the review. */
  predicate Snapped(s: Option<Snapshot>, before: Record, proposal: Record, actor: string, review: Option<Review>) {
    && (s.Some? <==> ReviewAsked(before, proposal))
    && (s.Some? ==>
          && review.Some? && s.value.verdict == review.value.verdict
          && s.value.artifactSha256 == proposal.identity.artifactSha256
          && s.value.authorRole == actor && s.value.reviewerRole == review.value.reviewerRole
          && review.value.deliveryScope == Some(s.value.deliveryScope) && s.value.evidence == review.value.evidence
          && s.value.acceptance == if proposal.readiness.READY_FOR_OPERATOR? then proposal.acceptance else None)
  }

  lemma JudgedExactly(
    before: Record, proposal: Record, actor: string, review: Option<Review>, proven: bool, hasTwin: bool)
    requires proposal.identity == before.identity && !before.readiness.WITHDRAWN?
    ensures var recovery := before.readiness.PREPARING? && proposal.readiness.WITHDRAWN? && hasTwin;
            var judged := Judged(before, proposal, actor, review, proven, recovery);
            && (judged.Ok? <==>
                  (ReviewAsked(before, proposal) ==> Reviewed(before, proposal, actor, review, proven, hasTwin)))
            && (judged.Ok? ==> Snapped(judged.value, before, proposal, actor, review))
  {
    DecisionStands(review, proposal, actor, {"PASS"});
    DecisionStands(review, proposal, actor, {"FAIL", "REWORK_REQUIRED"});
    DecisionStands(review, before, actor, {"FAIL", "REWORK_REQUIRED"});
  }

  lemma RefusalExactly(before: Record, proposal: Record, actor: string)
    ensures Refusal(before, proposal, actor).None? <==> OwnerAsks(before, proposal, actor)
  {
    TransferFields(before, proposal);
  }

  lemma StoreExactly(store: Store, i: nat, proposal: Record)
    requires i < |store|
    ensures var twin := Twin(store, i, Digest(store[i]));
            StoreAllows(store, i, proposal) <==>
              if store[i].readiness.PREPARING? && proposal.readiness.WITHDRAWN? && twin < |store|
              then WellFormed(store[twin]) && RecoveryOnly(store[i], proposal) else Consistent(store)
  {
    TwinIsFound(store, i);
    RecoveryFields(store[i], proposal);
    forall j: nat | j < |store|
      ensures IsFirstTwin(store, i, j) <==> j == Twin(store, i, Digest(store[i]))
    {
      FirstTwinIsFound(store, i, j);
    }
  }

  lemma RewrittenExactly(
    store: Store, i: nat, proposal: Record, actor: string, review: Option<Review>, proven: bool, recovery: bool)
    requires i < |store|
    ensures Rewritten(store, i, proposal, actor, review, proven, recovery).Ok? <==>
              && Judged(store[i], proposal, actor, review, proven, recovery).Ok?
              && NothingLost(store[i], proposal)
  {
  }

  lemma UpdatedParts(
    store: Store, i: nat, actor: string, proposal: Record, bytesMatch: bool, review: Option<Review>, proven: bool)
    requires FileOf(store, proposal.identity.candidateId, i)
    ensures var twin := Twin(store, i, Digest(store[i]));
            var recovery := store[i].readiness.PREPARING? && proposal.readiness.WITHDRAWN? && twin < |store|;
            Updated(store, actor, proposal, bytesMatch, review, proven).Ok? <==>
              && WellFormed(proposal) && bytesMatch && Refusal(store[i], proposal, actor).None?
              && (if recovery then WellFormed(store[twin]) && RecoveryOnly(store[i], proposal) else Consistent(store))
              && Rewritten(store, i, proposal, actor, review, proven, recovery).Ok?
  {
    FileIsFound(store, proposal.identity.candidateId, i);
  }

  /** Exactly when `update` accepts. */
  lemma UpdatesExactly(
    store: Store, i: nat, actor: string, proposal: Record, bytesMatch: bool, review: Option<Review>, proven: bool)
    requires FileOf(store, proposal.identity.candidateId, i)
    ensures Updated(store, actor, proposal, bytesMatch, review, proven).Ok? <==>
              && WellFormed(proposal) && bytesMatch
              && OwnerAsks(store[i], proposal, actor) && StoreAllows(store, i, proposal)
              && (ReviewAsked(store[i], proposal) ==>
                    Reviewed(store[i], proposal, actor, review, proven, HasTwin(store, i)))
              && NothingLost(store[i], proposal)
  {
    UpdatedParts(store, i, actor, proposal, bytesMatch, review, proven);
    RefusalExactly(store[i], proposal, actor);
    StoreExactly(store, i, proposal);
    TwinIsFound(store, i);
    var recovery := store[i].readiness.PREPARING? && proposal.readiness.WITHDRAWN? && HasTwin(store, i);
    RewrittenExactly(store, i, proposal, actor, review, proven, recovery);
    if OwnerAsks(store[i], proposal, actor) {
      JudgedExactly(store[i], proposal, actor, review, proven, HasTwin(store, i));
    }
  }

  /** The history gains a transition exactly when readiness or owner changed or a review was asked for. */
  predicate Continued(
    stored: Record, before: Record, proposal: Record, snapshot: Option<Snapshot>)
  {
    var past := if before.history.Some? then before.history.value else [];
    var moved := before.role != proposal.role;
    stored.history == Some(
      if before.readiness == proposal.readiness && !moved && snapshot.None? then past
      else past + [Transition(before.readiness, proposal.readiness, before.role, snapshot,
                              if moved then Some((before.role, proposal.role)) else None)])
  }

  lemma RevisedHolds(before: Record, proposal: Record, actor: string, snapshot: Option<Snapshot>)
    ensures Holds(Revised(before, proposal, actor, snapshot), proposal, before)
  {
  }

  lemma RevisedContinues(before: Record, proposal: Record, snapshot: Option<Snapshot>)
    ensures Continued(Revised(before, proposal, before.role, snapshot), before, proposal, snapshot)
  {
  }

  /**
   * What an accepted update leaves: in the one record the proposal's fields over the earlier ones, and in its
   * history the transition with exactly the review that was asked for, if one was.
   */
  lemma UpdateStores(
    store: Store, actor: string, proposal: Record, bytesMatch: bool, review: Option<Review>, proven: bool)
    returns (i: nat, snapshot: Option<Snapshot>)
    requires Updated(store, actor, proposal, bytesMatch, review, proven).Ok?
    ensures FileOf(store, proposal.identity.candidateId, i)
    ensures var done := Updated(store, actor, proposal, bytesMatch, review, proven).value;
            && done.store == store[i := done.record]
            && Holds(done.record, proposal, store[i])
            && Continued(done.record, store[i], proposal, snapshot)
    ensures Snapped(snapshot, store[i], proposal, actor, review)
  {
    i := Find(store, proposal.identity.candidateId);
    var hasTwin := HasTwin(store, i);
    TwinIsFound(store, i);
    JudgedExactly(store[i], proposal, actor, review, proven, hasTwin);
    var recovery := store[i].readiness.PREPARING? && proposal.readiness.WITHDRAWN? && hasTwin;
    snapshot := Judged(store[i], proposal, actor, review, proven, recovery).value;
    RevisedHolds(store[i], proposal, actor, snapshot);
    RevisedContinues(store[i], proposal, snapshot);
  }

  /** A delivered record that changes in one of the six fields has a new PASS in its history, and else none. */
  lemma DeliveredChangesAreReviewed(
    store: Store, actor: string, proposal: Record, bytesMatch: bool, review: Option<Review>, proven: bool, i: nat)
    requires FileOf(store, proposal.identity.candidateId, i) && store[i].role == proposal.role
    requires store[i].readiness.READY_FOR_OPERATOR? && proposal.readiness.READY_FOR_OPERATOR?
    requires Updated(store, actor, proposal, bytesMatch, review, proven).Ok?
    ensures var past := if store[i].history.Some? then store[i].history.value else [];
            var stored := Updated(store, actor, proposal, bytesMatch, review, proven).value.record;
            stored.history.Some? &&
            if Changed(store[i], proposal)
            then
              && |stored.history.value| == |past| + 1 && past <= stored.history.value
              && stored.history.value[|past|].snapshot.Some?
              && stored.history.value[|past|].snapshot.value.verdict == "PASS"
            else stored.history.value == past
  {
    var k, snapshot := UpdateStores(store, actor, proposal, bytesMatch, review, proven);
    UpdatesExactly(store, i, actor, proposal, bytesMatch, review, proven);
  }

  /** An active record of the artifact, which is what a second registration gives back. */
  predicate Known(store: Store, sha: string, j: nat) {
    j < |store| && !store[j].readiness.WITHDRAWN? && store[j].identity.artifactSha256 == sha
  }

  /** No record, withdrawn or not, has the artifact or the identifier. */
  predicate Unknown(store: Store, identity: Identity) {
    forall j | 0 <= j < |store| ::
      store[j].identity.artifactSha256 != identity.artifactSha256 && store[j].identity.candidateId != identity.candidateId
  }

  predicate SameBuild(a: Identity, b: Identity) {
    a.version == b.version && a.sourceSha == b.sourceSha && a.artifactBytes == b.artifactBytes
  }

  /**
   * `register` accepts a well-formed proposal of its actor exactly when the store has no duplicates and the
   * artifact is known with this build, or all of it is new and starts as PREPARING.
   */
  lemma RegistersExactly(store: Store, actor: string, proposal: Record, bytesMatch: bool)
    ensures Registered(store, actor, proposal, bytesMatch).Ok? <==>
              && WellFormed(proposal) && bytesMatch && proposal.role == actor && Consistent(store)
              && ((exists j: nat | j < |store| ::
                     Known(store, proposal.identity.artifactSha256, j) && SameBuild(store[j].identity, proposal.identity))
                  || (Unknown(store, proposal.identity) && proposal.readiness.PREPARING?))
  {
  }

  /** It gives back the known record and leaves the store, or puts the new one last. */
  lemma RegisterStores(store: Store, actor: string, proposal: Record, bytesMatch: bool)
    requires Registered(store, actor, proposal, bytesMatch).Ok?
    ensures var done := Registered(store, actor, proposal, bytesMatch).value;
            if Unknown(store, proposal.identity)
            then done.record == proposal && done.store == store + [proposal]
            else
              && done.store == store
              && exists j: nat | j < |store| ::
                   && Known(store, proposal.identity.artifactSha256, j) && done.record == store[j]
                   && SameBuild(store[j].identity, proposal.identity)
  {
  }
}
