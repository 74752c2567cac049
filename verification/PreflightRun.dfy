/** `runReadOnlyPlanner`: the prerequisites before the loop, and the loop. */
module PreflightRun {
  import opened Prelude
  import opened Store1Types
  import opened Store1Planner
  import opened PlannerGates
  import opened PagedServer
  import opened PreflightReads
  import opened PreflightPlans
  import opened PreflightLoop

  const PROOF_REQUIRED := Blocked("STORE1_V2_SIGNATURE_PREFLIGHT_REQUIRED")

  /** The reviewer readback has no part of the catalog yet. */
  predicate NothingRead(r: Readback) {
    && r.config.None? && r.proof.None? && r.release.None? && r.policies.None? && r.adapters.Unread?
    && r.surfaces.Unread? && r.profiles.Unread? && r.revisions.Unread? && r.assignments.Unread?
  }

  lemma BeforeReviewer(accepted: bool, now: int, r: Readback)
    requires !accepted || Reviewer(r).Stop?
    ensures var plan := PlanActivation(accepted, now, r); !plan.Post? && !plan.Ready?
  {
  }

  lemma BeforeProof(accepted: bool, now: int, r: Readback, config: Option<Config>)
    requires Reviewer(r).Go? && r.proof.None?
    ensures var plan := PlanActivation(accepted, now, r.(config := Some(config)));
            && !plan.Post? && !plan.Ready?
            && (plan == PROOF_REQUIRED <==> accepted && Provable(config))
  {
  }

  /** `before`: the times of the two plans in front of the loop. */
  method RunReadOnlyPlanner(accepted: bool, s: Server, reviewer: Readback, config: Option<Config>, proof: Proof,
                            before: (int, int), clock: nat -> int) returns (outcome: Result<Plan>)
    requires HonestServer(s) && NothingRead(reviewer)
    ensures var start := reviewer.(config := Some(config), proof := Some(proof));
            if accepted && PrerequisitesSatisfied(reviewer) && Provable(config) then
              && Loopable(s, start, config.value)
              && Ends(s, start, config.value, ReadsNeeded(s, start, config.value), clock, outcome)
            else outcome.Ok? && !outcome.value.Post? && !outcome.value.Ready?
    ensures outcome.Ok? && (outcome.value.Post? || outcome.value.Ready?) ==>
              && accepted && PrerequisitesSatisfied(reviewer) && Provable(s.config)
              && exists step: nat :: Covers(proof, s.config.value, reviewer.accounts.items[0].id, clock(step))
  {
    var readback := reviewer;
    ReviewerGoesExactly(readback);
    if !PrerequisitesSatisfied(readback) {
      BeforeReviewer(accepted, before.0, readback);
      return Ok(PlanActivation(accepted, before.0, readback));
    }
    BeforeProof(accepted, before.1, readback, config);
    readback := readback.(config := Some(config));
    var beforeProof := PlanActivation(accepted, before.1, readback);
    if beforeProof != PROOF_REQUIRED {
      return Ok(beforeProof);
    }
    readback := readback.(proof := Some(proof));
    outcome := ReadAndPlan(s, readback, config.value, clock);
    if outcome.Ok? && (outcome.value.Post? || outcome.value.Ready?) {
      ReportIsCovered(s, readback, config.value, ReadsNeeded(s, readback, config.value), clock, outcome.value);
    }
  }
}
