/** The operator's candidate records: what registering and updating a record does to the store. */
module CandidateRecords {
  import opened Prelude
  import opened PythonText

  datatype Readiness = PREPARING | READY_FOR_OPERATOR | WITHDRAWN

  /** The fields that no update may change. */
  datatype Identity = Identity(
    candidateId: string, version: string, sourceSha: string, artifactPath: string,
    artifactSha256: string, artifactBytes: int, browser: string, environment: string, workItemId: string)

  /** A file named with the digest of its content. */
  datatype Reference = Reference(path: string, sha256: string)

  /** What a transition keeps of the review that allowed it. */
  datatype Snapshot = Snapshot(
    verdict: string, artifactSha256: string, authorRole: string, reviewerRole: string,
    deliveryScope: seq<string>, evidence: seq<Reference>, acceptance: Option<Reference>)

  datatype Transition = Transition(
    previous: Readiness, next: Readiness, actor: string,
    snapshot: Option<Snapshot>, ownerTransfer: Option<(string, string)>)

  /** A record; an optional field is a key that its JSON object may lack. */
  datatype Record = Record(
    identity: Identity, role: string, readiness: Readiness,
    evidenceRefs: seq<string>, checkedScenarios: seq<string>, limitations: seq<string>,
    deliveryScope: Option<seq<string>>, backend: Option<string>, acceptance: Option<Reference>,
    fixes: Option<seq<string>>, updatedAt: Option<string>, other: map<string, string>,
    history: Option<seq<Transition>>)

  /** A review file as it was read, with the digests its evidence files really have. */
  datatype Review = Review(
    verdict: string, artifactSha256: string, authorRole: string, reviewerRole: string,
    deliveryScope: Option<seq<string>>, evidence: seq<Reference>, actual: map<string, string>)

  predicate IsRole(role: string) {
    role == "A" || role == "B" || role == "C"
  }

  predicate IsReviewer(role: string) {
    IsRole(role) || role == "CONTROLLER" || role == "INDEPENDENT_CODEX"
  }

  /** `[A-Za-z0-9][A-Za-z0-9_.-]{0,159}` */
  predicate IsCandidateId(id: string) {
    && 1 <= |id| <= 160
    && (forall i | 0 <= i < |id| :: IsUrlSafe(id[i]) || id[i] == '.')
    && id[0] != '_' && id[0] != '-' && id[0] != '.'
  }

  /** Something is left of the text when white space is stripped. */
  predicate Filled(text: string) {
    exists i | 0 <= i < |text| :: !IsSpace(text[i])
  }

  /** The checks of `_validate` on a record whose lists and strings have the right types. */
  predicate WellFormed(r: Record) {
    && IsCandidateId(r.identity.candidateId) && IsRole(r.role) && r.identity.workItemId != ""
    && |r.identity.artifactSha256| == 64 && IsHex(r.identity.artifactSha256)
    && |r.identity.sourceSha| == 40 && IsHex(r.identity.sourceSha)
    && Filled(r.identity.version) && Filled(r.identity.browser) && Filled(r.identity.environment)
    && Filled(r.identity.artifactPath) && r.identity.artifactBytes > 0
  }

  predicate Active(r: Record) {
    !r.readiness.WITHDRAWN?
  }

  function Digest(r: Record): string {
    r.identity.artifactSha256
  }

  /**
   * The records on disk, each in the file with the candidate's id as its name, in the order of a walk. A new
   * one is put last, whatever its name; on a consistent store the order decides nothing.
   */
  type Store = seq<Record>

  /** The position of the first active record, apart from the one at `skip`, with a given digest. */
  function Twin(store: Store, skip: int, sha: string): (i: nat)
    ensures i <= |store|
    ensures i < |store| ==> i != skip && Active(store[i]) && Digest(store[i]) == sha
    ensures forall j | 0 <= j < i :: !(j != skip && Active(store[j]) && Digest(store[j]) == sha)
  {
    if store == [] || (skip != 0 && Active(store[0]) && Digest(store[0]) == sha) then 0
    else 1 + Twin(store[1..], skip - 1, sha)
  }

  /** `inspect` accepts a store: its active records are well formed and their digests differ. */
  predicate Consistent(store: Store) {
    && (forall i | 0 <= i < |store| :: Active(store[i]) ==> WellFormed(store[i]))
    && (forall i, j | 0 <= i < j < |store| ::
          Active(store[i]) && Active(store[j]) ==> Digest(store[i]) != Digest(store[j]))
  }

  /** The position of the record with a given id, or the length of the store. */
  function Find(store: Store, id: string): (i: nat)
    ensures i <= |store|
    ensures i < |store| ==> store[i].identity.candidateId == id
    ensures forall j | 0 <= j < i :: store[j].identity.candidateId != id
  {
    if store == [] || store[0].identity.candidateId == id then 0 else 1 + Find(store[1..], id)
  }

  predicate WithdrawnBefore(store: Store, sha: string) {
    exists i | 0 <= i < |store| :: !Active(store[i]) && Digest(store[i]) == sha
  }

  /** What `register` returns, and the store it leaves. */
  datatype Stored = Stored(record: Record, store: Store)

  /** `register`; `bytesMatch` says that the artifact on disk has the stated size and digest. */
  function Registered(store: Store, actor: string, proposal: Record, bytesMatch: bool): Result<Stored> {
    if !WellFormed(proposal) || !bytesMatch then Err("CANDIDATE_INVALID")
    else if !IsRole(actor) || proposal.role != actor then Err("DELIVERY_OWNER_MISMATCH")
    else if !Consistent(store) then Err("DUPLICATE_ACTIVE_ARTIFACT")
    else
      var i := Twin(store, -1, Digest(proposal));
      if i < |store| then
        if
          || store[i].identity.version != proposal.identity.version
          || store[i].identity.sourceSha != proposal.identity.sourceSha
          || store[i].identity.artifactBytes != proposal.identity.artifactBytes
        then Err("ARTIFACT_IDENTITY_CONFLICT")
        else Ok(Stored(store[i], store))
      else if WithdrawnBefore(store, Digest(proposal)) then Err("WITHDRAWN_ARTIFACT_REQUIRES_NEW_REVIEW")
      else if !proposal.readiness.PREPARING? then Err("NEW_CANDIDATE_REQUIRES_REVIEW_TRANSITION")
      else if Find(store, proposal.identity.candidateId) < |store| then Err("CANDIDATE_ID_ALREADY_USED")
      else Ok(Stored(proposal, store + [proposal]))
  }

  /** `_decision`: the review must match the record, its author and its scope, and be independent. */
  function Decision(review: Option<Review>, r: Record, actor: string, verdicts: set<string>): Result<Snapshot> {
    if review.None? then Err("EXACT_REVIEW_REQUIRED")
    else
      var v := review.value;
      if v.verdict !in verdicts then Err("REVIEW_VERDICT_INVALID")
      else if v.artifactSha256 != Digest(r) then Err("REVIEW_ARTIFACT_MISMATCH")
      else if v.authorRole != actor || !IsReviewer(v.reviewerRole) || v.reviewerRole == actor then
        Err("INDEPENDENT_REVIEW_REQUIRED")
      else if r.deliveryScope.None? || r.deliveryScope.value == [] || v.deliveryScope != r.deliveryScope then
        Err("REVIEW_DELIVERY_SCOPE_MISMATCH")
      else if v.evidence == [] then Err("REVIEW_EVIDENCE_REQUIRED")
      else if exists ref | ref in v.evidence :: ref.path !in v.actual || v.actual[ref.path] != ref.sha256 then
        Err("REVIEW_EVIDENCE_HASH_MISMATCH")
      else
        Ok(Snapshot(v.verdict, v.artifactSha256, v.authorRole, v.reviewerRole,
                    r.deliveryScope.value, v.evidence, None))
  }

  /**
   * `_release_acceptance`: the record refers to an acceptance file that the review lists; `proven`
   * says that the file has that digest and that its content meets every other condition.
   */
  function Acceptance(review: Review, r: Record, proven: bool): Result<Reference> {
    if r.acceptance.None? then Err("RELEASE_ACCEPTANCE_REQUIRED")
    else if !proven then Err("RELEASE_ACCEPTANCE_INVALID")
    else if r.acceptance.value !in review.evidence then Err("RELEASE_ACCEPTANCE_NOT_REVIEWED")
    else Ok(r.acceptance.value)
  }

  predicate MaterialChange(current: Record, proposal: Record) {
    || proposal.deliveryScope != current.deliveryScope || proposal.backend != current.backend
    || proposal.checkedScenarios != current.checkedScenarios || proposal.limitations != current.limitations
    || proposal.acceptance != current.acceptance || proposal.fixes != current.fixes
  }

  /** Nothing differs but the owner, the time of the update and a history the current record also has. */
  predicate TransferOnly(current: Record, proposal: Record) {
    && proposal.(role := current.role, updatedAt := current.updatedAt, history := current.history) == current
    && (current.history.None? ==> proposal.history.None?)
  }

  /** Nothing differs but readiness and scope. */
  predicate RecoveryOnly(current: Record, proposal: Record) {
    proposal.(readiness := current.readiness, deliveryScope := current.deliveryScope) == current
  }

  function Either<T>(first: Option<T>, second: Option<T>): Option<T> {
    if first.Some? then first else second
  }

  /** `dict(current, **proposal)` with the current history. */
  function Merge(current: Record, proposal: Record): Record {
    Record(proposal.identity, proposal.role, proposal.readiness,
           proposal.evidenceRefs, proposal.checkedScenarios, proposal.limitations,
           Either(proposal.deliveryScope, current.deliveryScope), Either(proposal.backend, current.backend),
           Either(proposal.acceptance, current.acceptance), Either(proposal.fixes, current.fixes),
           Either(proposal.updatedAt, current.updatedAt), current.other + proposal.other,
           Some(History(current)))
  }

  function History(r: Record): seq<Transition> {
    if r.history.Some? then r.history.value else []
  }

  predicate Preserves(current: seq<string>, proposal: seq<string>) {
    forall x | x in current :: x in proposal
  }

  /** The review an update must show, as kept in its transition; none when none is asked for. */
  function Judged(
    current: Record, proposal: Record, actor: string, review: Option<Review>, proven: bool, recovery: bool)
    : Result<Option<Snapshot>>
  {
    if proposal.readiness.READY_FOR_OPERATOR? then
      if current.readiness == proposal.readiness && !MaterialChange(current, proposal) then Ok(None)
      else
        var decision := Decision(review, proposal, actor, {"PASS"});
        if decision.Err? then Err(decision.code)
        else
          var acceptance := Acceptance(review.value, proposal, proven);
          if acceptance.Err? then Err(acceptance.code)
          else Ok(Some(decision.value.(acceptance := Some(acceptance.value))))
    else if proposal.readiness.WITHDRAWN? || current.readiness.READY_FOR_OPERATOR? then
      var about := if proposal.readiness.WITHDRAWN? && recovery then proposal else current;
      var decision := Decision(review, about, actor, {"FAIL", "REWORK_REQUIRED"});
      if decision.Err? then Err(decision.code) else Ok(Some(decision.value))
    else Ok(None)
  }

  /** The record that `update` writes in place of `current`. */
  function Revised(current: Record, proposal: Record, actor: string, snapshot: Option<Snapshot>): Record {
    var merged := Merge(current, proposal);
    var transfer := proposal.role != current.role;
    if current.readiness == proposal.readiness && snapshot.None? && !transfer then merged
    else
      merged.(history := Some(History(current) + [Transition(
                current.readiness, proposal.readiness, actor, snapshot,
                if transfer then Some((current.role, proposal.role)) else None)]))
  }

  /** What `update` refuses by looking at the one record: owner, identity, withdrawal and transfer. */
  function Refusal(current: Record, proposal: Record, actor: string): Option<string> {
    if actor != current.role then Some("ONLY_DELIVERY_OWNER_MAY_UPDATE")
    else if proposal.identity != current.identity then Some("CANDIDATE_IDENTITY_IMMUTABLE")
    else if current.readiness.WITHDRAWN? then Some("WITHDRAWN_HISTORY_IMMUTABLE")
    else if proposal.role != current.role && proposal.readiness != current.readiness then
      Some("OWNERSHIP_TRANSFER_MUST_BE_SEPARATE")
    else if proposal.role != current.role && !TransferOnly(current, proposal) then
      Some("OWNERSHIP_TRANSFER_MUTATION_FORBIDDEN")
    else None
  }

  /** `update` */
  function Updated(
    store: Store, actor: string, proposal: Record, bytesMatch: bool, review: Option<Review>, proven: bool)
    : Result<Stored>
  {
    if !WellFormed(proposal) || !bytesMatch then Err("CANDIDATE_INVALID")
    else
      var i := Find(store, proposal.identity.candidateId);
      if i == |store| then Err("CANDIDATE_FILE_MISSING")
      else
        var current := store[i];
        var twin := Twin(store, i, Digest(current));
        var recovery := current.readiness.PREPARING? && proposal.readiness.WITHDRAWN? && twin < |store|;
        var refusal := Refusal(current, proposal, actor);
        if refusal.Some? then Err(refusal.value)
        else if recovery && !WellFormed(store[twin]) then Err("CANDIDATE_INVALID")
        else if !recovery && !Consistent(store) then Err("DUPLICATE_ACTIVE_ARTIFACT")
        else if recovery && !RecoveryOnly(current, proposal) then Err("WITHDRAWAL_RECOVERY_MUTATION_FORBIDDEN")
        else Rewritten(store, i, proposal, actor, review, proven, recovery)
  }

  /** The end of `update`: the review is judged, nothing accepted is lost, and the record is written. */
  function Rewritten(
    store: Store, i: nat, proposal: Record, actor: string, review: Option<Review>, proven: bool, recovery: bool)
    : Result<Stored>
    requires i < |store|
  {
    var current := store[i];
    var judged := Judged(current, proposal, actor, review, proven, recovery);
    if judged.Err? then Err(judged.code)
    else if
      || !Preserves(current.evidenceRefs, proposal.evidenceRefs)
      || !Preserves(current.checkedScenarios, proposal.checkedScenarios)
    then Err("ACCEPTED_EVIDENCE_MUST_BE_PRESERVED")
    else
      var record := Revised(current, proposal, actor, judged.value);
      Ok(Stored(record, store[i := record]))
  }
}
