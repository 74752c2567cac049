/** The gates in front of mutations. */
module PlannerGates {
  import opened Prelude
  import opened Store1Types
  import opened Store1Planner

  /** What the reviewer readback must say before a bootstrap proof is asked for. */
  predicate PrerequisitesSatisfied(r: Readback) {
    && r.beta == Some(CLOSED)
    && r.user.Some? && r.user.value.Some? && r.user.value.value.status.ACTIVE? && r.user.value.value.emailVerified
    && r.accounts.Page? && |r.accounts.items| == 1 && r.accounts.nextCursor == Some(None)
    && r.admission.Some? && r.admission.value == Some(Admission(r.accounts.items[0].id, true))
  }

  /** A base config that a proof can be made for. */
  predicate Provable(config: Option<Config>) {
    && config.Some? && config.value.contract.CONTROL_PLANE_V2? && config.value.bootstrapV2
    && config.value.signingKeyState.KEY_ACTIVE?
  }

  /** The proof is of the accepted package, made for this account under the key of this config. */
  predicate Identifies(proof: Proof, config: Config, accountId: string) {
    && proof.trusted && proof.wellFormed && proof.artifact == ACCEPTED
    && proof.signingKeyId == config.signingKeyId && proof.accountId == accountId
  }

  /** It has been issued before it expires, and has not expired yet. */
  predicate InForce(proof: Proof, now: int) {
    && proof.serverTime.Some? && proof.expiresAt.Some?
    && proof.serverTime.value < proof.expiresAt.value && now < proof.expiresAt.value
  }

  /** It was made of this very config. */
  predicate IsOf(proof: Proof, config: Config) {
    && proof.configVersion == config.configVersion && proof.contentHash == config.contentHash
    && proof.sourceFingerprint == config.sourceFingerprint
  }

  predicate Covers(proof: Proof, config: Config, accountId: string, now: int) {
    Identifies(proof, config, accountId) && InForce(proof, now) && IsOf(proof, config)
  }

  /** The reviewer gate opens for the one account that is admitted, and for no other. */
  lemma ReviewerGoesExactly(r: Readback)
    ensures Reviewer(r).Go? <==> PrerequisitesSatisfied(r)
    ensures Reviewer(r).Go? ==> Reviewer(r) == Go(r.accounts.items[0].id)
  {
  }

  /** The second gate opens exactly for a usable base that a proof in force covers. */
  lemma BaseGoesExactly(now: int, r: Readback, accountId: string)
    ensures SignedBase(now, r, accountId).Go? <==>
              && r.config.Some? && Provable(r.config.value) && r.proof.Some?
              && Covers(r.proof.value, r.config.value.value, accountId, now)
    ensures SignedBase(now, r, accountId).Go? ==> SignedBase(now, r, accountId) == Go(r.config.value.value)
  {
  }

  /** A proof that has expired, or is of an earlier config, blocks; one of somebody else's conflicts. */
  lemma ProofVerdicts(now: int, r: Readback, accountId: string)
    requires r.config.Some? && Provable(r.config.value) && r.proof.Some?
    ensures var proof, config := r.proof.value, r.config.value.value;
            SignedBase(now, r, accountId) ==
            if !proof.trusted then Stop(Blocked("STORE1_V2_SIGNATURE_PREFLIGHT_UNTRUSTED"))
            else if !Identifies(proof, config, accountId) then Stop(Conflict("STORE1_V2_SIGNATURE_PREFLIGHT_CONFLICT"))
            else if !InForce(proof, now) then Stop(Blocked("STORE1_V2_SIGNATURE_PREFLIGHT_EXPIRED"))
            else if !IsOf(proof, config) then Stop(Blocked("STORE1_V2_SIGNATURE_PREFLIGHT_STALE"))
            else Go(config)
  {
  }

  /** Whatever has been read: a mutation or READY is only planned behind both gates, for the accepted package. */
  lemma NothingWithoutProof(accepted: bool, now: int, r: Readback)
    requires var plan := PlanActivation(accepted, now, r); plan.Post? || plan.Ready?
    ensures accepted && PrerequisitesSatisfied(r) && r.config.Some? && Provable(r.config.value) && r.proof.Some?
    ensures Covers(r.proof.value, r.config.value.value, r.accounts.items[0].id, now)
  {
    ReviewerGoesExactly(r);
    if Reviewer(r).Go? {
      BaseGoesExactly(now, r, Reviewer(r).value);
      StopsAreNoMutations(now, r, Reviewer(r).value);
    }
  }

  lemma StopsAreNoMutations(now: int, r: Readback, accountId: string)
    ensures var gate := SignedBase(now, r, accountId); gate.Stop? ==> !gate.plan.Post? && !gate.plan.Ready?
  {
  }
}
