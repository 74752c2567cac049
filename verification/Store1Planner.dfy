/** The STORE-1 activation planner: one decision from everything read so far. */
module Store1Planner {
  import opened Prelude
  import opened Selection
  import opened Store1Types

  /** A part of the plan either decides or hands something on to the next part. */
  datatype Stage<+T> = Stop(plan: Plan) | Go(value: T)

  /** Of two parts in turn, the first one that decides does so. */
  function InTurn<S, T>(first: Stage<S>, second: Stage<T>): Stage<T> {
    if first.Stop? then Stop(first.plan) else second
  }

  /** Read a collection to its end before deciding anything from it. */
  function Complete<T>(c: Collection<T>, first: ReadPath, more: string -> ReadPath, unknown: string): Stage<seq<T>> {
    if c.Unread? then Stop(Read(first))
    else if c.nextCursor.None? then Stop(Blocked(unknown))
    else if c.nextCursor.value.Some? then Stop(Read(more(c.nextCursor.value.value)))
    else Go(c.items)
  }

  /** `reviewerPreflight`; hands on the account that the reviewer is admitted with. */
  function Reviewer(r: Readback): Stage<string> {
    if r.beta.None? then Stop(Read(BetaPath))
    else if !r.beta.value.CLOSED? then Stop(Blocked("STORE1_BETA_NOT_CLOSED"))
    else if r.user.None? then Stop(Read(UserPath))
    else if r.user.value.None? then Stop(Blocked("STORE1_REVIEWER_IDENTITY_PREEXISTING_REQUIRED"))
    else if !r.user.value.value.status.ACTIVE? then Stop(Conflict("STORE1_REVIEWER_SUSPENDED"))
    else if !r.user.value.value.emailVerified then Stop(Blocked("STORE1_REVIEWER_EMAIL_VERIFIED_REQUIRED"))
    else
      var accounts :=
        Complete(r.accounts, AccountsPath(None), c => AccountsPath(Some(c)), "STORE1_REVIEWER_ACCOUNT_PAGINATION_UNKNOWN");
      if accounts.Stop? then Stop(accounts.plan)
      else if |accounts.value| == 0 then Stop(Blocked("STORE1_REVIEWER_ACCOUNT_REQUIRED"))
      else if |accounts.value| > 1 then Stop(Blocked("STORE1_REVIEWER_ACCOUNT_AMBIGUOUS"))
      else if r.admission.None? then Stop(Read(AdmissionPath(accounts.value[0].id)))
      else if r.admission.value.None? || r.admission.value.value != Admission(accounts.value[0].id, true) then
        Stop(Blocked("STORE1_REVIEWER_BETA_ADMISSION_REQUIRED"))
      else Go(accounts.value[0].id)
  }

  predicate ProofFresh(proof: Proof, now: int) {
    && proof.serverTime.Some? && proof.expiresAt.Some?
    && now < proof.expiresAt.value && proof.serverTime.value < proof.expiresAt.value
  }

  predicate ProofBinds(proof: Proof, config: Config) {
    && proof.configVersion == config.configVersion
    && proof.contentHash == config.contentHash
    && proof.sourceFingerprint == config.sourceFingerprint
  }

  /** The signed base config and the proof that must cover it before any mutation. */
  function SignedBase(now: int, r: Readback, accountId: string): Stage<Config> {
    if r.config.None? then Stop(Read(ConfigPath))
    else if r.config.value.None? then Stop(Blocked("STORE1_V2_BASE_CONFIG_MISSING"))
    else
      var config := r.config.value.value;
      if !config.contract.CONTROL_PLANE_V2? || !config.bootstrapV2 then Stop(Conflict("STORE1_V2_CONFIG_CONFLICT"))
      else if !config.signingKeyState.KEY_ACTIVE? then Stop(Blocked("STORE1_V2_BASE_SIGNING_KEY_NOT_ACTIVE"))
      else if r.proof.None? then Stop(Blocked("STORE1_V2_SIGNATURE_PREFLIGHT_REQUIRED"))
      else
        var proof := r.proof.value;
        if !proof.trusted then Stop(Blocked("STORE1_V2_SIGNATURE_PREFLIGHT_UNTRUSTED"))
        else if
          || !proof.wellFormed || !proof.artifact.ACCEPTED?
          || proof.signingKeyId != config.signingKeyId || proof.accountId != accountId
        then Stop(Conflict("STORE1_V2_SIGNATURE_PREFLIGHT_CONFLICT"))
        else if !ProofFresh(proof, now) then Stop(Blocked("STORE1_V2_SIGNATURE_PREFLIGHT_EXPIRED"))
        else if !ProofBinds(proof, config) then Stop(Blocked("STORE1_V2_SIGNATURE_PREFLIGHT_STALE"))
        else Go(config)
  }

  /** The release binds the exact package, contract and browser. */
  predicate ReleaseExact(release: Release) {
    && release.version.CURRENT? && release.channel.STABLE? && release.artifact == Some(ACCEPTED)
    && release.contracts == [CONTROL_PLANE_V2] && release.browsers == [OPERA]
  }

  function ReleaseStage(r: Readback): Stage<()> {
    if r.release.None? then Stop(Read(ReleasePath))
    else if r.release.value.None? then Stop(Post(PublishRelease(ACCEPTED)))
    else if !ReleaseExact(r.release.value.value) then Stop(Conflict("STORE1_RELEASE_CONFLICT"))
    else Go(())
  }

  predicate PolicyMatches(policy: Policy, version: Version) {
    && policy.key.STORE1_KEY? && policy.contract.CONTROL_PLANE_V2? && policy.browser == Some(OPERA)
    && policy.minimumExtension == Some(version) && policy.recommendedExtension == Some(version)
    && policy.minimumBrowser == Some(MINIMUM_136)
    && !policy.maintenanceMode && policy.maintenanceCode.None? && policy.blockedVersions == []
  }

  function PolicyStage(r: Readback, config: Config): Stage<Policy> {
    if r.policies.None? then Stop(Read(PoliciesPath))
    else if r.policies.value == [] || PolicyMatches(r.policies.value[0], PREDECESSOR) then Stop(Post(PublishPolicy))
    else if !PolicyMatches(r.policies.value[0], CURRENT) then Stop(Conflict("STORE1_POLICY_CONFLICT"))
    else if r.policies.value[0].id !in config.policyIds then
      Stop(Post(PublishConfig(config.configVersion, r.policies.value[0].id)))
    else Go(r.policies.value[0])
  }

  predicate IsStore1(e: Entity) {
    e.key.STORE1_KEY?
  }

  function AdapterStage(r: Readback): Stage<Entity> {
    var adapters := Complete(r.adapters, AdaptersPath(None), c => AdaptersPath(Some(c)),
                             "STORE1_ADAPTER_PAGINATION_UNKNOWN");
    if adapters.Stop? then Stop(adapters.plan)
    else
      match ExactOne(adapters.value, IsStore1)
      case Many => Stop(Conflict("STORE1_ADAPTER_CONFLICT"))
      case Missing => Stop(Post(CreateAdapter))
      case One(adapter) =>
        if adapter.status.ACTIVE? then Go(adapter) else Stop(Conflict("STORE1_ADAPTER_DISABLED"))
  }

  function SurfaceStage(r: Readback, adapterId: string): Stage<Entity> {
    var surfaces := Complete(r.surfaces, SurfacesPath(adapterId, None), c => SurfacesPath(adapterId, Some(c)),
                             "STORE1_SURFACE_PAGINATION_UNKNOWN");
    if surfaces.Stop? then Stop(surfaces.plan)
    else
      match ExactOne(surfaces.value, IsStore1)
      case Many => Stop(Conflict("STORE1_SURFACE_CONFLICT"))
      case Missing => Stop(Post(CreateSurface(adapterId)))
      case One(surface) =>
        if surface.status.ACTIVE? then Go(surface) else Stop(Conflict("STORE1_SURFACE_DISABLED"))
  }

  /** The profiles that STORE-1 may use under an adapter and a surface. */
  function ProfileScope(adapterId: string, surfaceId: string): Profile -> bool {
    (p: Profile) => p.key.STORE1_KEY? && p.adapterId == adapterId && p.surfaceId == surfaceId && p.variantId.None?
  }

  function ProfileStage(r: Readback, adapterId: string, surfaceId: string): Stage<Profile> {
    var profiles := Complete(r.profiles, ProfilesPath(adapterId, surfaceId, None),
                             c => ProfilesPath(adapterId, surfaceId, Some(c)), "STORE1_PROFILE_PAGINATION_UNKNOWN");
    if profiles.Stop? then Stop(profiles.plan)
    else
      match ExactOne(profiles.value, ProfileScope(adapterId, surfaceId))
      case Many => Stop(Conflict("STORE1_PROFILE_CONFLICT"))
      case Missing => Stop(Post(CreateProfile(adapterId, surfaceId)))
      case One(profile) =>
        if profile.status.ACTIVE? then Go(profile) else Stop(Conflict("STORE1_PROFILE_SCOPE_CONFLICT"))
  }

  predicate IsTarget(revision: Revision) {
    revision.content.TARGET?
  }

  /** Hands on all revisions and the published target among them. */
  function RevisionStage(r: Readback, profileId: string): Stage<(seq<Revision>, Revision)> {
    var revisions := Complete(r.revisions, RevisionsPath(profileId, None), c => RevisionsPath(profileId, Some(c)),
                              "STORE1_PROFILE_REVISION_PAGINATION_UNKNOWN");
    if revisions.Stop? then Stop(revisions.plan)
    else
      match ExactOne(revisions.value, IsTarget)
      case Many => Stop(Conflict("STORE1_PROFILE_REVISION_CONFLICT"))
      case Missing => Stop(Post(CreateRevision(profileId)))
      case One(revision) =>
        match revision.state
        case RETIRED => Stop(Conflict("STORE1_PROFILE_REVISION_RETIRED"))
        case DRAFT => Stop(Post(PromoteRevision(profileId, revision.revision)))
        case CANDIDATE => Stop(Post(PublishRevision(profileId, revision.revision)))
        case PUBLISHED => Go((revisions.value, revision))
  }

  /** The assignments of exactly the Opera account scope without variant. */
  function AssignmentScope(adapterId: string, surfaceId: string): Assignment -> bool {
    (a: Assignment) => && a.adapterId == adapterId && a.surfaceId == surfaceId && a.variantId.None?
                       && a.browser.OPERA? && a.subject.ACCOUNT?
  }

  /** The assignment selects exactly one revision, for everybody. */
  predicate Selects(latest: Latest, revisionId: string) {
    latest.mode.DIRECT? && latest.baseline == revisionId && latest.candidate.None? && latest.percentageBps == 0
  }

  predicate IsPredecessor(revision: Revision) {
    revision.state.PUBLISHED? && revision.content.PREVIOUS?
  }

  function AssignmentStage(
    r: Readback, adapterId: string, surfaceId: string, revisions: seq<Revision>, revision: Revision): Plan
  {
    var assignments := Complete(r.assignments, AssignmentsPath(adapterId, surfaceId, None),
                                c => AssignmentsPath(adapterId, surfaceId, Some(c)),
                                "STORE1_ASSIGNMENT_PAGINATION_UNKNOWN");
    if assignments.Stop? then assignments.plan
    else
      match ExactOne(assignments.value, AssignmentScope(adapterId, surfaceId))
      case Many => Conflict("STORE1_ASSIGNMENT_CONFLICT")
      case Missing => Post(CreateAssignment(adapterId, surfaceId))
      case One(assignment) =>
        if assignment.latest.None? then Post(SelectDirect(assignment.id, revision.id, None))
        else if Selects(assignment.latest.value, revision.id) then Ready(revision.id, assignment.id)
        else
          var predecessor := ExactOne(revisions, IsPredecessor);
          if predecessor.One? && Selects(assignment.latest.value, predecessor.value.id) then
            Post(SelectDirect(assignment.id, revision.id, Some(assignment.latest.value.revision)))
          else Conflict("STORE1_ASSIGNMENT_TARGET_CONFLICT")
  }

  /** The registry part of the plan: below a profile, a surface and an adapter, and from the adapter on. */
  function PlanBelowProfile(r: Readback, adapterId: string, surfaceId: string, profileId: string): Plan {
    var revision := RevisionStage(r, profileId);
    if revision.Stop? then revision.plan
    else AssignmentStage(r, adapterId, surfaceId, revision.value.0, revision.value.1)
  }

  function PlanBelowSurface(r: Readback, adapterId: string, surfaceId: string): Plan {
    var profile := ProfileStage(r, adapterId, surfaceId);
    if profile.Stop? then profile.plan else PlanBelowProfile(r, adapterId, surfaceId, profile.value.id)
  }

  function PlanBelowAdapter(r: Readback, adapterId: string): Plan {
    var surface := SurfaceStage(r, adapterId);
    if surface.Stop? then surface.plan else PlanBelowSurface(r, adapterId, surface.value.id)
  }

  function RegistryPlan(r: Readback): Plan {
    var adapter := AdapterStage(r);
    if adapter.Stop? then adapter.plan else PlanBelowAdapter(r, adapter.value.id)
  }

  /** The compatibility part of the plan, from the release to the config. */
  function CompatibilityStage(r: Readback, config: Config): Stage<Policy> {
    InTurn(ReleaseStage(r), PolicyStage(r, config))
  }

  /** The plan once the reviewer and the signed base are in order. */
  function CatalogPlan(r: Readback, config: Config): Plan {
    var policy := CompatibilityStage(r, config);
    if policy.Stop? then policy.plan else RegistryPlan(r)
  }

  /** `planStore1Activation`; `accepted` says that the package authority is the accepted one. */
  function PlanActivation(accepted: bool, now: int, r: Readback): Plan {
    if !accepted then Conflict("STORE1_PACKAGE_AUTHORITY_CONFLICT")
    else
      var reviewer := Reviewer(r);
      if reviewer.Stop? then reviewer.plan
      else
        var base := SignedBase(now, r, reviewer.value);
        if base.Stop? then base.plan else CatalogPlan(r, base.value)
  }
}
