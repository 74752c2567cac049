/** The planner and the independent analyzer agree on when STORE-1 is ready. */
module PlannerAgreement {
  import opened Prelude
  import opened Selection
  import opened Store1Types
  import opened Store1Planner
  import Store1Catalog
  import TransitionTypes
  import opened ReleaseArtifact
  import opened TransitionAnalyzer

  type RegistryEntity = TransitionTypes.RegistryEntity
  type TransitionCatalog = TransitionTypes.TransitionCatalog
  type TransitionRelease = TransitionTypes.TransitionRelease

  const STORE1 := TransitionTypes.STORE1_TARGET

  function Map<S, T>(f: S -> T, values: seq<S>): seq<T> {
    if values == [] then [] else [f(values[0])] + Map(f, values[1..])
  }

  lemma {:induction false} MatchingMap<S, T>(f: S -> T, values: seq<S>, inner: S -> bool, outer: T -> bool)
    requires forall v | v in values :: outer(f(v)) == inner(v)
    ensures Matching(Map(f, values), outer) == Map(f, Matching(values, inner))
  {
    if values != [] {
      MatchingMap(f, values[1..], inner, outer);
    }
  }

  lemma {:induction false} MapShape<S, T>(f: S -> T, values: seq<S>)
    ensures |Map(f, values)| == |values|
    ensures forall i | 0 <= i < |values| :: Map(f, values)[i] == f(values[i])
  {
    if values != [] {
      MapShape(f, values[1..]);
    }
  }

  /** Selecting after a translation is translating what is selected. */
  lemma ExactOneMap<S, T>(f: S -> T, values: seq<S>, inner: S -> bool, outer: T -> bool)
    requires forall v | v in values :: outer(f(v)) == inner(v)
    ensures ExactOne(Map(f, values), outer).Missing? <==> ExactOne(values, inner).Missing?
    ensures ExactOne(Map(f, values), outer).Many? <==> ExactOne(values, inner).Many?
    ensures ExactOne(values, inner).One? ==>
              ExactOne(Map(f, values), outer) == One(f(ExactOne(values, inner).value))
  {
    MatchingMap(f, values, inner, outer);
    MapShape(f, Matching(values, inner));
  }

  /** How an entity of the planner's readback appears in the analyzer's catalog. */
  function AsAdapter(e: Entity): RegistryEntity {
    TransitionTypes.RegistryEntity(e.id, e.key, e.status, None, None, None)
  }

  function AsSurface(adapterId: string): Entity -> RegistryEntity {
    (e: Entity) => TransitionTypes.RegistryEntity(e.id, e.key, e.status, Some(adapterId), None, None)
  }

  function AsProfile(p: Profile): RegistryEntity {
    TransitionTypes.RegistryEntity(p.id, p.key, p.status, Some(p.adapterId), Some(p.surfaceId), p.variantId)
  }

  /** Every supported browser has a row, and only the digest for all browsers is set. */
  ghost predicate SharedRows(release: TransitionRelease) {
    RowsCover(release) && forall row | row in release.rows.value :: row.artifact.None?
  }

  ghost predicate SameRelease(r: Readback, c: TransitionCatalog) {
    && r.release.Some? && c.release.Some?
    && (r.release.value.None? <==> c.release.value.None?)
    && (c.release.value.Some? ==>
          c.release.value.value.release == r.release.value.value && SharedRows(c.release.value.value))
  }

  /** The first policy of the readback is the highest revision in the analyzer's scope. */
  ghost predicate SamePolicy(r: Readback, c: TransitionCatalog) {
    && r.policies.Some?
    && var latest := LatestPolicy(STORE1, Items(c.policies));
       && (latest.None? <==> r.policies.value == [])
       && (latest.Some? ==> latest.value.policy == r.policies.value[0])
  }

  /** The collections are complete and the same as far as the chain of entities leads. */
  ghost predicate SameAssignments(r: Readback, c: TransitionCatalog) {
    exists items :: r.assignments == Page(items, Some(None)) && c.assignments == Some(items)
  }

  ghost predicate SameRevisions(r: Readback, c: TransitionCatalog) {
    exists items :: r.revisions == Page(items, Some(None)) && c.revisions == Some(items)
  }

  ghost predicate SameProfiles(r: Readback, c: TransitionCatalog, adapterId: string, surfaceId: string) {
    && r.profiles.Page? && r.profiles.nextCursor == Some(None) && c.profiles == Some(Map(AsProfile, r.profiles.items))
    && (ExactOne(r.profiles.items, ProfileScope(adapterId, surfaceId)).One? ==>
          SameRevisions(r, c) && SameAssignments(r, c))
  }

  ghost predicate SameSurfaces(r: Readback, c: TransitionCatalog, adapterId: string) {
    && r.surfaces.Page? && r.surfaces.nextCursor == Some(None)
    && c.surfaces == Some(Map(AsSurface(adapterId), r.surfaces.items))
    && (ExactOne(r.surfaces.items, IsStore1).One? ==>
          SameProfiles(r, c, adapterId, ExactOne(r.surfaces.items, IsStore1).value.id))
  }

  ghost predicate SameAdapters(r: Readback, c: TransitionCatalog) {
    && r.adapters.Page? && r.adapters.nextCursor == Some(None) && c.adapters == Some(Map(AsAdapter, r.adapters.items))
    && (ExactOne(r.adapters.items, IsStore1).One? ==>
          SameSurfaces(r, c, ExactOne(r.adapters.items, IsStore1).value.id))
  }

  /** The readback and the catalog describe the same server, completely read and without errors. */
  ghost predicate Corresponds(r: Readback, c: TransitionCatalog) {
    && c.errors == [] && SameRelease(r, c) && SamePolicy(r, c) && r.config == c.config && SameAdapters(r, c)
  }

  lemma ScopesAlike(items: seq<Assignment>, revisions: seq<Revision>, adapterId: string, surfaceId: string)
    ensures ExactOne(items, BrowserScope(STORE1, adapterId, surfaceId))
         == ExactOne(items, AssignmentScope(adapterId, surfaceId))
    ensures ExactOne(revisions, ContentScope(STORE1)) == ExactOne(revisions, IsTarget)
  {
    MatchingSame(items, BrowserScope(STORE1, adapterId, surfaceId), AssignmentScope(adapterId, surfaceId));
    MatchingSame(revisions, ContentScope(STORE1), IsTarget);
  }

  /** The analyzer finds everything in order below a profile, a surface and an adapter. */
  ghost predicate ReadyBelowProfile(c: TransitionCatalog, adapterId: string, surfaceId: string) {
    exists revision, a ::
      RevisionReady(STORE1, c, revision) && AssignmentReady(STORE1, c, adapterId, surfaceId, revision.id, a)
  }

  ghost predicate ReadyBelowSurface(c: TransitionCatalog, adapterId: string, surfaceId: string) {
    ReadyBelowProfile(c, adapterId, surfaceId)
    && exists profile :: ProfileReady(STORE1, c, adapterId, surfaceId, profile)
  }

  ghost predicate ReadyBelowAdapter(c: TransitionCatalog, adapterId: string) {
    exists surface :: SurfaceReady(STORE1, c, adapterId, surface) && ReadyBelowSurface(c, adapterId, surface.id)
  }

  lemma ProfileChain(r: Readback, c: TransitionCatalog, adapterId: string, surfaceId: string, profileId: string)
    requires c.errors == [] && SameRevisions(r, c) && SameAssignments(r, c)
    ensures PlanBelowProfile(r, adapterId, surfaceId, profileId).Ready? <==> ReadyBelowProfile(c, adapterId, surfaceId)
  {
    ScopesAlike(Items(c.assignments), Items(c.revisions), adapterId, surfaceId);
    var stage := RevisionStage(r, profileId);
    if PlanBelowProfile(r, adapterId, surfaceId, profileId).Ready? {
      var a := ExactOne(Items(c.assignments), AssignmentScope(adapterId, surfaceId)).value;
      assert RevisionReady(STORE1, c, stage.value.1);
      assert AssignmentReady(STORE1, c, adapterId, surfaceId, stage.value.1.id, a);
    }
  }

  lemma SurfaceChain(r: Readback, c: TransitionCatalog, adapterId: string, surfaceId: string)
    requires c.errors == [] && SameProfiles(r, c, adapterId, surfaceId)
    ensures PlanBelowSurface(r, adapterId, surfaceId).Ready? <==> ReadyBelowSurface(c, adapterId, surfaceId)
  {
    ExactOneMap(AsProfile, r.profiles.items, ProfileScope(adapterId, surfaceId),
                EntityScope(STORE1, adapterId, surfaceId));
    var found := ExactOne(r.profiles.items, ProfileScope(adapterId, surfaceId));
    if found.One? {
      ProfileChain(r, c, adapterId, surfaceId, found.value.id);
      if found.value.status.ACTIVE? {
        assert ProfileReady(STORE1, c, adapterId, surfaceId, AsProfile(found.value));
      }
    }
  }

  lemma AdapterChain(r: Readback, c: TransitionCatalog, adapterId: string)
    requires c.errors == [] && SameSurfaces(r, c, adapterId)
    ensures PlanBelowAdapter(r, adapterId).Ready? <==> ReadyBelowAdapter(c, adapterId)
  {
    var found := ExactOne(r.surfaces.items, IsStore1);
    ExactOneMap(AsSurface(adapterId), r.surfaces.items, IsStore1, SurfaceScope(STORE1, adapterId));
    if found.One? {
      SurfaceChain(r, c, adapterId, found.value.id);
      if found.value.status.ACTIVE? {
        assert SurfaceReady(STORE1, c, adapterId, AsSurface(adapterId)(found.value));
      }
    }
  }

  lemma RegistryChain(r: Readback, c: TransitionCatalog)
    requires c.errors == [] && SameAdapters(r, c)
    ensures RegistryPlan(r).Ready? <==>
              exists adapter :: AdapterReady(STORE1, c, adapter) && ReadyBelowAdapter(c, adapter.id)
  {
    var found := ExactOne(r.adapters.items, IsStore1);
    ExactOneMap(AsAdapter, r.adapters.items, IsStore1, AdapterScope(STORE1));
    if found.One? {
      AdapterChain(r, c, found.value.id);
      if found.value.status.ACTIVE? {
        assert AdapterReady(STORE1, c, AsAdapter(found.value));
      }
    }
  }

  lemma ChainFlattened(c: TransitionCatalog)
    ensures RegistryReady(STORE1, c) <==>
              exists adapter :: AdapterReady(STORE1, c, adapter) && ReadyBelowAdapter(c, adapter.id)
  {
    if RegistryReady(STORE1, c) {
      var e, s, p, v, a :| ChainReady(STORE1, c, e, s, p, v, a);
      assert ReadyBelowProfile(c, e.id, s.id);
      assert ReadyBelowSurface(c, e.id, s.id);
      assert ReadyBelowAdapter(c, e.id);
    }
    if exists adapter :: AdapterReady(STORE1, c, adapter) && ReadyBelowAdapter(c, adapter.id) {
      var e :| AdapterReady(STORE1, c, e) && ReadyBelowAdapter(c, e.id);
      var s :| SurfaceReady(STORE1, c, e.id, s) && ReadyBelowSurface(c, e.id, s.id);
      var p :| ProfileReady(STORE1, c, e.id, s.id, p);
      var v, a :| RevisionReady(STORE1, c, v) && AssignmentReady(STORE1, c, e.id, s.id, v.id, a);
      assert ChainReady(STORE1, c, e, s, p, v, a);
    }
  }

  /** The release: the planner asks for exactly one contract and browser, the analyzer for inclusion. */
  lemma ReleaseAgreement(release: TransitionRelease)
    requires SharedRows(release)
    ensures ReleaseExact(release.release) <==>
              && ReleaseBinds(STORE1, release)
              && release.release.contracts == [CONTROL_PLANE_V2] && release.release.browsers == [OPERA]
  {
    ClassifiedExactly(release, OPERA, ACCEPTED);
  }

  lemma CompatibilityAgreement(r: Readback, c: TransitionCatalog, config: Config)
    requires c.errors == [] && SameRelease(r, c) && SamePolicy(r, c) && c.config == Some(Some(config))
    requires config.contract.CONTROL_PLANE_V2? && config.bootstrapV2 && config.signingKeyState.KEY_ACTIVE?
    ensures CompatibilityStage(r, config).Go? <==>
              && ReleaseReady(STORE1, c) && PolicyReady(STORE1, c) && ConfigReady(STORE1, c)
              && c.release.value.value.release.contracts == [CONTROL_PLANE_V2]
              && c.release.value.value.release.browsers == [OPERA]
  {
    if c.release.value.Some? {
      ReleaseAgreement(c.release.value.value);
    }
  }

  /**
   * On corresponding complete reads, with the reviewer prerequisites and the signed base in order,
   * the planner answers READY exactly when the analyzer does and the release supports no other
   * contract or browser.
   */
  lemma PlannerAgreesWithAnalyzer(now: int, r: Readback, c: TransitionCatalog)
    requires Corresponds(r, c)
    requires Reviewer(r).Go? && SignedBase(now, r, Reviewer(r).value).Go?
    ensures PlanActivation(true, now, r).Ready? <==>
              && TransitionReady(STORE1, c)
              && c.release.value.value.release.contracts == [CONTROL_PLANE_V2]
              && c.release.value.value.release.browsers == [OPERA]
  {
    var config := SignedBase(now, r, Reviewer(r).value).value;
    BaseIsUsable(now, r, Reviewer(r).value);
    CompatibilityAgreement(r, c, config);
    RegistryChain(r, c);
    ChainFlattened(c);
    PlanReadyParts(now, r);
  }

  lemma BaseIsUsable(now: int, r: Readback, accountId: string)
    requires SignedBase(now, r, accountId).Go?
    ensures var config := SignedBase(now, r, accountId).value;
            && r.config == Some(Some(config))
            && config.contract.CONTROL_PLANE_V2? && config.bootstrapV2 && config.signingKeyState.KEY_ACTIVE?
  {
  }

  lemma PlanReadyParts(now: int, r: Readback)
    requires Reviewer(r).Go? && SignedBase(now, r, Reviewer(r).value).Go?
    ensures var config := SignedBase(now, r, Reviewer(r).value).value;
            PlanActivation(true, now, r).Ready? <==> CompatibilityStage(r, config).Go? && RegistryPlan(r).Ready?
  {
  }

  /** In particular, an independent check never contradicts a planner that answers READY. */
  lemma ReadyPlanPassesAnalyzer(now: int, accepted: bool, r: Readback, c: TransitionCatalog)
    requires Corresponds(r, c) && PlanActivation(accepted, now, r).Ready?
    ensures TransitionReady(STORE1, c)
  {
    ReadyNeedsGates(now, accepted, r);
    PlannerAgreesWithAnalyzer(now, r, c);
  }

  lemma ReadyNeedsGates(now: int, accepted: bool, r: Readback)
    requires PlanActivation(accepted, now, r).Ready?
    ensures accepted && Reviewer(r).Go? && SignedBase(now, r, Reviewer(r).value).Go?
  {
  }
}
