/** What is planned, field by field. */
module PlannerOutcomes {
  import opened Prelude
  import opened Selection
  import opened Store1Types
  import opened Store1Planner
  import opened PlannerGates

  predicate ReadToEnd<T(==)>(c: Collection<T>) {
    c.Page? && c.nextCursor == Some(None)
  }

  /** The one release that is accepted, and the one policy for a version. */
  predicate IsBound(release: Release) {
    release == Release(CURRENT, STABLE, Some(ACCEPTED), [CONTROL_PLANE_V2], [OPERA])
  }

  predicate PolicyFor(policy: Policy, version: Version) {
    policy == Policy(policy.id, STORE1_KEY, CONTROL_PLANE_V2, Some(OPERA), Some(version), Some(version),
                     Some(MINIMUM_136), false, None, [])
  }

  predicate ReleaseThere(r: Readback) {
    r.release.Some? && r.release.value.Some? && IsBound(r.release.value.value)
  }

  /** The latest policy is the one of this version. */
  predicate LatestIs(r: Readback, version: Version) {
    r.policies.Some? && |r.policies.value| > 0 && PolicyFor(r.policies.value[0], version)
  }

  /** Release, policy and config are in order. */
  predicate Compatible(r: Readback, config: Config) {
    ReleaseThere(r) && LatestIs(r, CURRENT) && r.policies.value[0].id in config.policyIds
  }

  function Keyed(): Entity -> bool {
    (e: Entity) => e.key == STORE1_KEY
  }

  function Scoped(adapterId: string, surfaceId: string): Profile -> bool {
    (p: Profile) => p == Profile(p.id, STORE1_KEY, p.status, adapterId, surfaceId, None)
  }

  function OnTarget(): Revision -> bool {
    (v: Revision) => v.content == TARGET
  }

  function BeforeTarget(): Revision -> bool {
    (v: Revision) => v.state == PUBLISHED && v.content == PREVIOUS
  }

  function Assigned(adapterId: string, surfaceId: string): Assignment -> bool {
    (a: Assignment) => a == Assignment(a.id, adapterId, surfaceId, None, OPERA, ACCOUNT, a.latest)
  }

  /** The assignment has everybody on the revision. */
  predicate Chooses(latest: Option<Latest>, revisionId: string) {
    latest.Some? && latest.value == Latest(latest.value.revision, DIRECT, revisionId, None, 0)
  }

  predicate AdapterIs(r: Readback, e: Entity) {
    ReadToEnd(r.adapters) && IsOnly(r.adapters.items, Keyed(), e) && e.status == ACTIVE
  }

  predicate SurfaceIs(r: Readback, e: Entity) {
    ReadToEnd(r.surfaces) && IsOnly(r.surfaces.items, Keyed(), e) && e.status == ACTIVE
  }

  predicate ProfileIs(r: Readback, adapterId: string, surfaceId: string, p: Profile) {
    ReadToEnd(r.profiles) && IsOnly(r.profiles.items, Scoped(adapterId, surfaceId), p) && p.status == ACTIVE
  }

  predicate RevisionIs(r: Readback, v: Revision) {
    ReadToEnd(r.revisions) && IsOnly(r.revisions.items, OnTarget(), v)
  }

  predicate AssignmentIs(r: Readback, adapterId: string, surfaceId: string, a: Assignment) {
    ReadToEnd(r.assignments) && IsOnly(r.assignments.items, Assigned(adapterId, surfaceId), a)
  }

  /** Exactly one published revision has the content of the predecessor, and the assignment chooses it. */
  ghost predicate OnPredecessor(r: Readback, a: Assignment) {
    r.revisions.Page? && exists v :: IsOnly(r.revisions.items, BeforeTarget(), v) && Chooses(a.latest, v.id)
  }

  lemma AdapterStageExactly(r: Readback)
    ensures forall e :: AdapterStage(r) == Go(e) <==> AdapterIs(r, e)
    ensures forall action :: AdapterStage(r) == Stop(Post(action)) <==>
              action == CreateAdapter && ReadToEnd(r.adapters) && HasNone(r.adapters.items, Keyed())
    ensures forall v, a :: AdapterStage(r) != Stop(Ready(v, a))
  {
    if r.adapters.Page? {
      SelectedExactly(r.adapters.items, IsStore1, Keyed());
    }
  }

  lemma SurfaceStageExactly(r: Readback, adapterId: string)
    ensures forall e :: SurfaceStage(r, adapterId) == Go(e) <==> SurfaceIs(r, e)
    ensures forall action :: SurfaceStage(r, adapterId) == Stop(Post(action)) <==>
              action == CreateSurface(adapterId) && ReadToEnd(r.surfaces) && HasNone(r.surfaces.items, Keyed())
    ensures forall v, a :: SurfaceStage(r, adapterId) != Stop(Ready(v, a))
  {
    if r.surfaces.Page? {
      SelectedExactly(r.surfaces.items, IsStore1, Keyed());
    }
  }

  lemma ProfileStageExactly(r: Readback, adapterId: string, surfaceId: string)
    ensures forall p :: ProfileStage(r, adapterId, surfaceId) == Go(p) <==> ProfileIs(r, adapterId, surfaceId, p)
    ensures forall action :: ProfileStage(r, adapterId, surfaceId) == Stop(Post(action)) <==>
              && action == CreateProfile(adapterId, surfaceId)
              && ReadToEnd(r.profiles) && HasNone(r.profiles.items, Scoped(adapterId, surfaceId))
    ensures forall v, a :: ProfileStage(r, adapterId, surfaceId) != Stop(Ready(v, a))
  {
    if r.profiles.Page? {
      SelectedExactly(r.profiles.items, ProfileScope(adapterId, surfaceId), Scoped(adapterId, surfaceId));
    }
  }

  predicate IsNextStep(v: Revision, profileId: string, action: Action) {
    || (action == PromoteRevision(profileId, v.revision) && v.state == DRAFT)
    || (action == PublishRevision(profileId, v.revision) && v.state == CANDIDATE)
  }

  /** The target has to be made, promoted or published. */
  ghost predicate RevisionDue(r: Readback, profileId: string, action: Action) {
    || (action == CreateRevision(profileId) && ReadToEnd(r.revisions) && HasNone(r.revisions.items, OnTarget()))
    || exists v :: RevisionIs(r, v) && IsNextStep(v, profileId, action)
  }

  lemma RevisionStageExactly(r: Readback, profileId: string)
    ensures forall v :: RevisionStage(r, profileId).Go? && RevisionStage(r, profileId).value.1 == v <==>
              RevisionIs(r, v) && v.state == PUBLISHED
    ensures RevisionStage(r, profileId).Go? ==> RevisionStage(r, profileId).value.0 == r.revisions.items
    ensures forall action :: RevisionStage(r, profileId) == Stop(Post(action)) <==> RevisionDue(r, profileId, action)
    ensures forall v, a :: RevisionStage(r, profileId) != Stop(Ready(v, a))
  {
    if r.revisions.Page? {
      SelectedExactly(r.revisions.items, IsTarget, OnTarget());
      var found := ExactOne(r.revisions.items, IsTarget);
      if ReadToEnd(r.revisions) && found.One? {
        assert RevisionIs(r, found.value);
        RevisionFound(r, profileId, found.value);
      }
    }
  }

  /** The stage for the one revision of the target. */
  lemma RevisionFound(r: Readback, profileId: string, v: Revision)
    requires ReadToEnd(r.revisions) && ExactOne(r.revisions.items, IsTarget) == One(v)
    ensures RevisionStage(r, profileId).Go? <==> v.state == PUBLISHED
    ensures v.state == PUBLISHED ==> RevisionStage(r, profileId) == Go((r.revisions.items, v))
    ensures forall action :: RevisionStage(r, profileId) == Stop(Post(action)) <==> IsNextStep(v, profileId, action)
  {
  }

  ghost predicate IsSelection(r: Readback, a: Assignment, target: Revision, action: Action) {
    if a.latest.None? then action == SelectDirect(a.id, target.id, None)
    else
      && action == SelectDirect(a.id, target.id, Some(a.latest.value.revision))
      && !Chooses(a.latest, target.id) && OnPredecessor(r, a)
  }

  /** The assignment has to be made, or put on the target for the first time or from the predecessor. */
  ghost predicate AssignmentDue(r: Readback, adapterId: string, surfaceId: string, target: Revision, action: Action) {
    || (&& action == CreateAssignment(adapterId, surfaceId)
        && ReadToEnd(r.assignments) && HasNone(r.assignments.items, Assigned(adapterId, surfaceId)))
    || exists a :: AssignmentIs(r, adapterId, surfaceId, a) && IsSelection(r, a, target, action)
  }

  lemma PredecessorExactly(r: Readback, a: Assignment)
    requires r.revisions.Page? && a.latest.Some?
    ensures OnPredecessor(r, a) <==>
              var found := ExactOne(r.revisions.items, IsPredecessor);
              found.One? && Selects(a.latest.value, found.value.id)
  {
    SelectedExactly(r.revisions.items, IsPredecessor, BeforeTarget());
    var found := ExactOne(r.revisions.items, IsPredecessor);
    if found.One? {
      assert IsOnly(r.revisions.items, BeforeTarget(), found.value);
    }
  }

  /** The plan for the one assignment. */
  lemma AssignmentFound(r: Readback, adapterId: string, surfaceId: string, target: Revision, a: Assignment)
    requires r.revisions.Page? && ReadToEnd(r.assignments)
    requires ExactOne(r.assignments.items, AssignmentScope(adapterId, surfaceId)) == One(a)
    ensures var plan := AssignmentStage(r, adapterId, surfaceId, r.revisions.items, target);
            && (forall action :: plan == Post(action) <==> IsSelection(r, a, target, action))
            && (forall v, id :: plan == Ready(v, id) <==> v == target.id && Chooses(a.latest, v) && id == a.id)
  {
    if a.latest.Some? {
      PredecessorExactly(r, a);
    }
  }

  lemma AssignmentStageExactly(r: Readback, adapterId: string, surfaceId: string, target: Revision)
    requires r.revisions.Page?
    ensures var plan := AssignmentStage(r, adapterId, surfaceId, r.revisions.items, target);
            && (forall action :: plan == Post(action) <==> AssignmentDue(r, adapterId, surfaceId, target, action))
            && (forall v, id :: plan == Ready(v, id) <==>
                  v == target.id && exists a :: AssignmentIs(r, adapterId, surfaceId, a) && Chooses(a.latest, v) && id == a.id)
  {
    if r.assignments.Page? {
      SelectedExactly(r.assignments.items, AssignmentScope(adapterId, surfaceId), Assigned(adapterId, surfaceId));
      var found := ExactOne(r.assignments.items, AssignmentScope(adapterId, surfaceId));
      if ReadToEnd(r.assignments) && found.One? {
        assert AssignmentIs(r, adapterId, surfaceId, found.value);
        AssignmentFound(r, adapterId, surfaceId, target, found.value);
      }
    }
  }

  ghost predicate DueBelowProfile(r: Readback, adapterId: string, surfaceId: string, profileId: string, action: Action) {
    || RevisionDue(r, profileId, action)
    || exists v :: RevisionIs(r, v) && v.state == PUBLISHED && AssignmentDue(r, adapterId, surfaceId, v, action)
  }

  ghost predicate DueBelowSurface(r: Readback, adapterId: string, surfaceId: string, action: Action) {
    || (&& action == CreateProfile(adapterId, surfaceId)
        && ReadToEnd(r.profiles) && HasNone(r.profiles.items, Scoped(adapterId, surfaceId)))
    || exists p :: ProfileIs(r, adapterId, surfaceId, p) && DueBelowProfile(r, adapterId, surfaceId, p.id, action)
  }

  ghost predicate DueBelowAdapter(r: Readback, adapterId: string, action: Action) {
    || (action == CreateSurface(adapterId) && ReadToEnd(r.surfaces) && HasNone(r.surfaces.items, Keyed()))
    || exists s :: SurfaceIs(r, s) && DueBelowSurface(r, adapterId, s.id, action)
  }

  ghost predicate DueInRegistry(r: Readback, action: Action) {
    || (action == CreateAdapter && ReadToEnd(r.adapters) && HasNone(r.adapters.items, Keyed()))
    || exists e :: AdapterIs(r, e) && DueBelowAdapter(r, e.id, action)
  }

  /** The mutation is the next one, everything before it being in order. */
  ghost predicate Due(r: Readback, config: Config, action: Action) {
    match action
    case PublishRelease(artifact) => r.release == Some(None) && artifact == ACCEPTED
    case PublishPolicy =>
      && ReleaseThere(r) && r.policies.Some?
      && (|r.policies.value| == 0 || LatestIs(r, PREDECESSOR))
    case PublishConfig(expected, policyId) =>
      && ReleaseThere(r) && LatestIs(r, CURRENT) && expected == config.configVersion
      && policyId == r.policies.value[0].id && policyId !in config.policyIds
    case _ => Compatible(r, config) && DueInRegistry(r, action)
  }

  lemma BelowProfile(r: Readback, adapterId: string, surfaceId: string, profileId: string)
    ensures var plan := PlanBelowProfile(r, adapterId, surfaceId, profileId);
            && (forall action :: plan == Post(action) <==> DueBelowProfile(r, adapterId, surfaceId, profileId, action))
            && (forall v, id :: plan == Ready(v, id) <==> SettledBelowProfile(r, adapterId, surfaceId, v, id))
  {
    RevisionStageExactly(r, profileId);
    var revision := RevisionStage(r, profileId);
    if revision.Go? {
      AssignmentStageExactly(r, adapterId, surfaceId, revision.value.1);
      NotAlsoDue(r, profileId);
    }
  }

  /** A published target leaves nothing to do to it. */
  lemma NotAlsoDue(r: Readback, profileId: string)
    requires RevisionStage(r, profileId).Go?
    ensures forall action :: !RevisionDue(r, profileId, action)
  {
    RevisionStageExactly(r, profileId);
  }

  /** The target is published, and the one assignment has everybody on it. */
  ghost predicate SettledBelowProfile(r: Readback, adapterId: string, surfaceId: string, revisionId: string, assignmentId: string) {
    exists v, a ::
      && RevisionIs(r, v) && v.state == PUBLISHED && v.id == revisionId
      && AssignmentIs(r, adapterId, surfaceId, a) && Chooses(a.latest, v.id) && a.id == assignmentId
  }

  ghost predicate SettledBelowAdapter(r: Readback, adapterId: string, revisionId: string, assignmentId: string) {
    exists s, p :: SurfaceIs(r, s) && ProfileIs(r, adapterId, s.id, p)
                   && SettledBelowProfile(r, adapterId, s.id, revisionId, assignmentId)
  }

  /** Adapter, surface, profile, target and assignment are there, each the only one, and belong together. */
  ghost predicate Settled(r: Readback, revisionId: string, assignmentId: string) {
    exists e :: AdapterIs(r, e) && SettledBelowAdapter(r, e.id, revisionId, assignmentId)
  }

  lemma BelowSurface(r: Readback, adapterId: string, surfaceId: string)
    ensures var plan := PlanBelowSurface(r, adapterId, surfaceId);
            && (forall action :: plan == Post(action) <==> DueBelowSurface(r, adapterId, surfaceId, action))
            && (forall v, id :: plan == Ready(v, id) <==>
                  exists p :: ProfileIs(r, adapterId, surfaceId, p) && SettledBelowProfile(r, adapterId, surfaceId, v, id))
  {
    ProfileStageExactly(r, adapterId, surfaceId);
    var profile := ProfileStage(r, adapterId, surfaceId);
    if profile.Go? {
      BelowProfile(r, adapterId, surfaceId, profile.value.id);
    }
  }

  lemma BelowAdapter(r: Readback, adapterId: string)
    ensures var plan := PlanBelowAdapter(r, adapterId);
            && (forall action :: plan == Post(action) <==> DueBelowAdapter(r, adapterId, action))
            && (forall v, id :: plan == Ready(v, id) <==> SettledBelowAdapter(r, adapterId, v, id))
  {
    SurfaceStageExactly(r, adapterId);
    var surface := SurfaceStage(r, adapterId);
    if surface.Go? {
      BelowSurface(r, adapterId, surface.value.id);
    }
  }

  lemma InRegistry(r: Readback)
    ensures forall action :: RegistryPlan(r) == Post(action) <==> DueInRegistry(r, action)
    ensures forall v, id :: RegistryPlan(r) == Ready(v, id) <==> Settled(r, v, id)
  {
    AdapterStageExactly(r);
    var adapter := AdapterStage(r);
    if adapter.Go? {
      BelowAdapter(r, adapter.value.id);
    }
  }

  lemma CompatibleExactly(r: Readback, config: Config)
    ensures CompatibilityStage(r, config).Go? <==> Compatible(r, config)
    ensures forall v, id :: CompatibilityStage(r, config) != Stop(Ready(v, id))
    ensures forall action :: CompatibilityStage(r, config) == Stop(Post(action)) <==>
              (action.PublishRelease? || action.PublishPolicy? || action.PublishConfig?) && Due(r, config, action)
  {
  }

  /** The registry plan asks for registry mutations only. */
  lemma RegistryActions(r: Readback, action: Action)
    requires RegistryPlan(r) == Post(action)
    ensures !action.PublishRelease? && !action.PublishPolicy? && !action.PublishConfig?
  {
  }

  /**
   * Behind the gates the planner asks for a mutation exactly when it is the next one that is due, and answers
   * READY exactly when release, policy, config and the whole chain of entities are in order.
   */
  lemma PlansExactly(r: Readback, config: Config)
    ensures forall action :: CatalogPlan(r, config) == Post(action) <==> Due(r, config, action)
    ensures forall v, id :: CatalogPlan(r, config) == Ready(v, id) <==> Compatible(r, config) && Settled(r, v, id)
  {
    CompatibleExactly(r, config);
    InRegistry(r);
    forall action | RegistryPlan(r) == Post(action)
      ensures !action.PublishRelease? && !action.PublishPolicy? && !action.PublishConfig?
    {
      RegistryActions(r, action);
    }
  }

  /** The whole plan: a mutation or READY exactly for the accepted package, behind both gates, as the catalog has it. */
  lemma ActivatesExactly(accepted: bool, now: int, r: Readback)
    ensures var open := accepted && PrerequisitesSatisfied(r) && r.config.Some? && Provable(r.config.value) && r.proof.Some?
                        && Covers(r.proof.value, r.config.value.value, r.accounts.items[0].id, now);
            && (forall action :: PlanActivation(accepted, now, r) == Post(action) <==> open && Due(r, r.config.value.value, action))
            && (forall v, id :: PlanActivation(accepted, now, r) == Ready(v, id) <==>
                  open && Compatible(r, r.config.value.value) && Settled(r, v, id))
  {
    var plan := PlanActivation(accepted, now, r);
    ReviewerGoesExactly(r);
    if plan.Post? || plan.Ready? {
      NothingWithoutProof(accepted, now, r);
    }
    if accepted && PrerequisitesSatisfied(r) {
      BaseGoesExactly(now, r, r.accounts.items[0].id);
      if r.config.Some? && Provable(r.config.value) {
        PlansExactly(r, r.config.value.value);
      }
    }
  }
}
