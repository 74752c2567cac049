/** The independent analyzer of a catalog for a release transition. */
module TransitionAnalyzer {
  import opened Prelude
  import opened Selection
  import opened Store1Types
  import opened TransitionTypes
  import opened ReleaseArtifact

  predicate Reported(c: TransitionCatalog, scope: Component) {
    exists issue | issue in c.errors :: issue.scope == scope
  }

  /** The code of the first issue of a scope. */
  function IssueCode(errors: seq<Issue>, scope: Component): string
    requires exists issue | issue in errors :: issue.scope == scope
  {
    if errors[0].scope == scope then errors[0].code else IssueCode(errors[1..], scope)
  }

  function Items<T>(values: Option<seq<T>>): seq<T> {
    if values.Some? then values.value else []
  }

  predicate PolicyInScope(t: Target, p: TransitionPolicy) {
    p.policy.key == t.policyKey && p.policy.contract == t.contract && p.policy.browser == Some(t.browser)
  }

  /** The first of the policies in scope with the highest revision. */
  function LatestPolicy(t: Target, policies: seq<TransitionPolicy>): (latest: Option<TransitionPolicy>)
    ensures latest.None? <==> forall p | p in policies :: !PolicyInScope(t, p)
    ensures latest.Some? ==> latest.value in policies && PolicyInScope(t, latest.value)
    ensures latest.Some? ==> forall p | p in policies && PolicyInScope(t, p) :: p.revision <= latest.value.revision
  {
    if policies == [] then None
    else
      var rest := LatestPolicy(t, policies[1..]);
      if PolicyInScope(t, policies[0]) && (rest.None? || rest.value.revision <= policies[0].revision) then
        Some(policies[0])
      else rest
  }

  function AdapterScope(t: Target): RegistryEntity -> bool {
    (e: RegistryEntity) => e.key == t.adapterKey
  }

  function SurfaceScope(t: Target, adapterId: string): RegistryEntity -> bool {
    (e: RegistryEntity) => e.key == t.surfaceKey && e.adapterId == Some(adapterId)
  }

  function EntityScope(t: Target, adapterId: string, surfaceId: string): RegistryEntity -> bool {
    (e: RegistryEntity) =>
      e.key == t.profileKey && e.adapterId == Some(adapterId) && e.surfaceId == Some(surfaceId) && e.variantId.None?
  }

  function ContentScope(t: Target): Revision -> bool {
    (r: Revision) => r.content == t.profileContent
  }

  function BrowserScope(t: Target, adapterId: string, surfaceId: string): Assignment -> bool {
    (a: Assignment) => && a.adapterId == adapterId && a.surfaceId == surfaceId && a.variantId.None?
                       && a.browser == t.browser && a.subject.ACCOUNT?
  }

  /** The published release binds the target package for the target contract and browser. */
  predicate ReleaseBinds(t: Target, r: TransitionRelease) {
    && r.release.version == t.productVersion && r.release.channel.STABLE?
    && Classify(r, t.browser) == Ok(t.artifact)
    && t.contract in r.release.contracts && t.browser in r.release.browsers
  }

  predicate PolicyDescribes(t: Target, p: Policy) {
    && p.minimumExtension == Some(t.productVersion) && p.recommendedExtension == Some(t.productVersion)
    && p.minimumBrowser == Some(t.minimumBrowser)
    && !p.maintenanceMode && p.maintenanceCode.None? && p.blockedVersions == []
  }

  predicate ConfigUsable(t: Target, config: Config) {
    config.contract == t.contract && config.bootstrapV2 && config.signingKeyState.KEY_ACTIVE?
  }

  predicate AssignmentSelects(latest: Option<Latest>, revisionId: string) {
    && latest.Some? && latest.value.mode.DIRECT? && latest.value.baseline == revisionId
    && latest.value.candidate.None? && latest.value.percentageBps == 0
  }

  /** When each component is in order. */
  predicate ReleaseReady(t: Target, c: TransitionCatalog) {
    !Reported(c, RELEASE) && c.release.Some? && c.release.value.Some? && ReleaseBinds(t, c.release.value.value)
  }

  predicate PolicyReady(t: Target, c: TransitionCatalog) {
    && !Reported(c, POLICY)
    && LatestPolicy(t, Items(c.policies)).Some? && PolicyDescribes(t, LatestPolicy(t, Items(c.policies)).value.policy)
  }

  predicate ConfigReady(t: Target, c: TransitionCatalog) {
    && PolicyReady(t, c) && !Reported(c, CONFIG)
    && c.config.Some? && c.config.value.Some? && ConfigUsable(t, c.config.value.value)
    && LatestPolicy(t, Items(c.policies)).value.policy.id in c.config.value.value.policyIds
  }

  predicate AdapterReady(t: Target, c: TransitionCatalog, adapter: RegistryEntity) {
    && !Reported(c, ADAPTER)
    && ExactOne(Items(c.adapters), AdapterScope(t)) == One(adapter) && adapter.status.ACTIVE?
  }

  predicate SurfaceReady(t: Target, c: TransitionCatalog, adapterId: string, surface: RegistryEntity) {
    && !Reported(c, SURFACE)
    && ExactOne(Items(c.surfaces), SurfaceScope(t, adapterId)) == One(surface) && surface.status.ACTIVE?
  }

  predicate ProfileReady(t: Target, c: TransitionCatalog, adapterId: string, surfaceId: string, profile: RegistryEntity) {
    && !Reported(c, PROFILE)
    && ExactOne(Items(c.profiles), EntityScope(t, adapterId, surfaceId)) == One(profile) && profile.status.ACTIVE?
  }

  predicate RevisionReady(t: Target, c: TransitionCatalog, revision: Revision) {
    && !Reported(c, PROFILE_REVISION)
    && ExactOne(Items(c.revisions), ContentScope(t)) == One(revision) && revision.state.PUBLISHED?
  }

  predicate AssignmentReady(
    t: Target, c: TransitionCatalog, adapterId: string, surfaceId: string, revisionId: string, a: Assignment)
  {
    && !Reported(c, ASSIGNMENT)
    && ExactOne(Items(c.assignments), BrowserScope(t, adapterId, surfaceId)) == One(a)
    && AssignmentSelects(a.latest, revisionId)
  }

  /** The entities on which everything depends, each the only one of its kind and in order. */
  predicate ChainReady(
    t: Target, c: TransitionCatalog,
    adapter: RegistryEntity, surface: RegistryEntity, profile: RegistryEntity, revision: Revision, a: Assignment)
  {
    && AdapterReady(t, c, adapter)
    && SurfaceReady(t, c, adapter.id, surface)
    && ProfileReady(t, c, adapter.id, surface.id, profile)
    && RevisionReady(t, c, revision)
    && AssignmentReady(t, c, adapter.id, surface.id, revision.id, a)
  }

  /** The catalog is ready for the target. */
  ghost predicate TransitionReady(t: Target, c: TransitionCatalog) {
    && ReleaseReady(t, c) && PolicyReady(t, c) && ConfigReady(t, c)
    && RegistryReady(t, c)
  }

  ghost predicate RegistryReady(t: Target, c: TransitionCatalog) {
    exists adapter, surface, profile, revision, a :: ChainReady(t, c, adapter, surface, profile, revision, a)
  }

  /** How far the chain of entities is in order. */
  ghost predicate AnyAdapter(t: Target, c: TransitionCatalog) {
    exists adapter :: AdapterReady(t, c, adapter)
  }

  ghost predicate AnySurface(t: Target, c: TransitionCatalog) {
    exists adapter, surface :: AdapterReady(t, c, adapter) && SurfaceReady(t, c, adapter.id, surface)
  }

  ghost predicate AnyProfile(t: Target, c: TransitionCatalog) {
    exists adapter, surface, profile ::
      AdapterReady(t, c, adapter) && SurfaceReady(t, c, adapter.id, surface) && ProfileReady(t, c, adapter.id, surface.id, profile)
  }

  ghost predicate AnyRevision(t: Target, c: TransitionCatalog) {
    AnyProfile(t, c) && exists revision :: RevisionReady(t, c, revision)
  }

  /** A part could not be read although everything that it depends on is in order. */
  ghost predicate RegistryUnknown(t: Target, c: TransitionCatalog) {
    || Reported(c, ADAPTER)
    || (AnyAdapter(t, c) && Reported(c, SURFACE))
    || (AnySurface(t, c) && Reported(c, PROFILE))
    || (AnyProfile(t, c) && Reported(c, PROFILE_REVISION))
    || (AnyRevision(t, c) && Reported(c, ASSIGNMENT))
  }

  ghost predicate TransitionUnknown(t: Target, c: TransitionCatalog) {
    Reported(c, RELEASE) || Reported(c, POLICY) || Reported(c, CONFIG) || RegistryUnknown(t, c)
  }

  /** The check of the release. */
  method CheckRelease(t: Target, c: TransitionCatalog) returns (check: Check)
    ensures check.component == RELEASE && (check.status.READY? <==> ReleaseReady(t, c))
    ensures check.status.UNKNOWN? <==> Reported(c, RELEASE)
  {
    if Reported(c, RELEASE) {
      return Check(RELEASE, UNKNOWN, IssueCode(c.errors, RELEASE));
    }
    if c.release.None? || c.release.value.None? {
      return Check(RELEASE, MISMATCH, "RELEASE_MISSING");
    }
    var release := c.release.value.value;
    var effective := Classify(release, t.browser);
    if || release.release.version != t.productVersion || !release.release.channel.STABLE?
       || effective.Err? || effective.value != t.artifact
       || t.contract !in release.release.contracts || t.browser !in release.release.browsers {
      return Check(RELEASE, MISMATCH, if effective.Err? then effective.code else "RELEASE_CONFLICT");
    }
    check := Check(RELEASE, READY, "RELEASE_READY");
  }

  /** The checks of the policy and the config. */
  method CheckPolicyAndConfig(t: Target, c: TransitionCatalog) returns (policy: Check, config: Check)
    ensures policy.component == POLICY && (policy.status.READY? <==> PolicyReady(t, c))
    ensures config.component == CONFIG && (config.status.READY? <==> ConfigReady(t, c))
    ensures policy.status.UNKNOWN? <==> Reported(c, POLICY)
    ensures config.status.UNKNOWN? <==> Reported(c, CONFIG)
  {
    var targetPolicy: Option<Policy> := None;
    if Reported(c, POLICY) {
      policy := Check(POLICY, UNKNOWN, IssueCode(c.errors, POLICY));
    } else {
      var latest := LatestPolicy(t, Items(c.policies));
      if latest.None? {
        policy := Check(POLICY, MISMATCH, "POLICY_MISSING");
      } else if !PolicyDescribes(t, latest.value.policy) {
        policy := Check(POLICY, MISMATCH, "POLICY_TARGET_MISMATCH");
      } else {
        targetPolicy := Some(latest.value.policy);
        policy := Check(POLICY, READY, "POLICY_READY");
      }
    }
    if Reported(c, CONFIG) {
      config := Check(CONFIG, UNKNOWN, IssueCode(c.errors, CONFIG));
    } else if c.config.None? || c.config.value.None? {
      config := Check(CONFIG, MISMATCH, "CONFIG_MISSING");
    } else if !ConfigUsable(t, c.config.value.value) {
      config := Check(CONFIG, MISMATCH, "CONFIG_CONFLICT");
    } else if targetPolicy.None? {
      config := Check(CONFIG, MISMATCH, "CONFIG_TARGET_POLICY_UNAVAILABLE");
    } else if targetPolicy.value.id !in c.config.value.value.policyIds {
      config := Check(CONFIG, MISMATCH, "CONFIG_POLICY_LINK_MISSING");
    } else {
      config := Check(CONFIG, READY, "CONFIG_READY");
    }
  }

  /** One registry entity: the only match, and active. */
  method CheckEntity(
    c: TransitionCatalog, component: Component, values: seq<RegistryEntity>, scope: RegistryEntity -> bool,
    missing: string, conflict: string, disabled: string, ready: string)
    returns (check: Check, entity: Option<RegistryEntity>)
    ensures check.component == component && (check.status.READY? <==> entity.Some?)
    ensures check.status.UNKNOWN? <==> Reported(c, component)
    ensures forall e :: entity == Some(e) <==>
              !Reported(c, component) && ExactOne(values, scope) == One(e) && e.status.ACTIVE?
  {
    entity := None;
    if Reported(c, component) {
      return Check(component, UNKNOWN, IssueCode(c.errors, component)), None;
    }
    match ExactOne(values, scope)
    case Missing => check := Check(component, MISMATCH, missing);
    case Many => check := Check(component, MISMATCH, conflict);
    case One(e) =>
      if !e.status.ACTIVE? {
        check := Check(component, MISMATCH, disabled);
      } else {
        entity := Some(e);
        check := Check(component, READY, ready);
      }
  }

  method CheckRevision(t: Target, c: TransitionCatalog) returns (check: Check, revision: Option<Revision>)
    ensures check.component == PROFILE_REVISION && (check.status.READY? <==> revision.Some?)
    ensures check.status.UNKNOWN? <==> Reported(c, PROFILE_REVISION)
    ensures forall r :: revision == Some(r) <==> RevisionReady(t, c, r)
  {
    revision := None;
    if Reported(c, PROFILE_REVISION) {
      return Check(PROFILE_REVISION, UNKNOWN, IssueCode(c.errors, PROFILE_REVISION)), None;
    }
    match ExactOne(Items(c.revisions), ContentScope(t))
    case Missing => check := Check(PROFILE_REVISION, MISMATCH, "PROFILE_TARGET_REVISION_MISSING");
    case Many => check := Check(PROFILE_REVISION, MISMATCH, "PROFILE_TARGET_REVISION_CONFLICT");
    case One(r) =>
      if !r.state.PUBLISHED? {
        check := Check(PROFILE_REVISION, MISMATCH, "PROFILE_TARGET_REVISION_NOT_PUBLISHED");
      } else {
        revision := Some(r);
        check := Check(PROFILE_REVISION, READY, "PROFILE_REVISION_READY");
      }
  }

  method CheckAssignment(t: Target, c: TransitionCatalog, adapterId: string, surfaceId: string, revisionId: string)
    returns (check: Check)
    ensures check.component == ASSIGNMENT
    ensures check.status.UNKNOWN? <==> Reported(c, ASSIGNMENT)
    ensures check.status.READY? <==> exists a :: AssignmentReady(t, c, adapterId, surfaceId, revisionId, a)
  {
    if Reported(c, ASSIGNMENT) {
      return Check(ASSIGNMENT, UNKNOWN, IssueCode(c.errors, ASSIGNMENT));
    }
    match ExactOne(Items(c.assignments), BrowserScope(t, adapterId, surfaceId))
    case Missing => check := Check(ASSIGNMENT, MISMATCH, "ASSIGNMENT_MISSING");
    case Many => check := Check(ASSIGNMENT, MISMATCH, "ASSIGNMENT_CONFLICT");
    case One(a) =>
      if !AssignmentSelects(a.latest, revisionId) {
        check := Check(ASSIGNMENT, MISMATCH, "ASSIGNMENT_TARGET_MISMATCH");
      } else {
        check := Check(ASSIGNMENT, READY, "ASSIGNMENT_READY");
        assert AssignmentReady(t, c, adapterId, surfaceId, revisionId, a);
      }
  }

  /** The status of the report. */
  function Overall(checks: seq<Check>): (status: CheckStatus)
    ensures status.UNKNOWN? <==> exists check | check in checks :: check.status.UNKNOWN?
    ensures status.READY? <==> forall check | check in checks :: check.status.READY?
  {
    if exists check | check in checks :: check.status.UNKNOWN? then UNKNOWN
    else if exists check | check in checks :: !check.status.READY? then MISMATCH
    else READY
  }

  lemma AllOfEight(a: Check, b: Check, c: Check, d: Check, e: Check, f: Check, g: Check, h: Check)
    ensures (forall check | check in [a, b, c, d, e, f, g, h] :: check.status.READY?) <==>
              && a.status.READY? && b.status.READY? && c.status.READY? && d.status.READY?
              && e.status.READY? && f.status.READY? && g.status.READY? && h.status.READY?
    ensures (exists check | check in [a, b, c, d, e, f, g, h] :: check.status.UNKNOWN?) <==>
              || a.status.UNKNOWN? || b.status.UNKNOWN? || c.status.UNKNOWN? || d.status.UNKNOWN?
              || e.status.UNKNOWN? || f.status.UNKNOWN? || g.status.UNKNOWN? || h.status.UNKNOWN?
  {
    var all := [a, b, c, d, e, f, g, h];
    assert forall i | 0 <= i < 8 :: all[i] in all;
  }

  predicate InFixedOrder(checks: seq<Check>) {
    && |checks| == 8
    && checks[0].component == RELEASE && checks[1].component == POLICY && checks[2].component == CONFIG
    && checks[3].component == ADAPTER && checks[4].component == SURFACE && checks[5].component == PROFILE
    && checks[6].component == PROFILE_REVISION && checks[7].component == ASSIGNMENT
  }

  /**
   * `analyzeStoreReleaseTransition`: eight checks, one for each component in a fixed order, for every
   * catalog; READY exactly when the catalog is ready, and UNKNOWN exactly when some part could not be
   * read although everything that it depends on is in order.
   */
  method Analyze(t: Target, c: TransitionCatalog) returns (checks: seq<Check>, status: CheckStatus)
    ensures InFixedOrder(checks)
    ensures status.READY? <==> TransitionReady(t, c)
    ensures status.UNKNOWN? <==> TransitionUnknown(t, c)
    ensures status.UNKNOWN? <==> exists check | check in checks :: check.status.UNKNOWN?
    ensures status.READY? <==> forall check | check in checks :: check.status.READY?
  {
    var release := CheckRelease(t, c);
    var policy, config := CheckPolicyAndConfig(t, c);
    var adapter, surface, profile, revision, assignment := CheckRegistry(t, c);
    checks := [release, policy, config, adapter, surface, profile, revision, assignment];
    status := Overall(checks);
    AllOfEight(release, policy, config, adapter, surface, profile, revision, assignment);
  }

  /** The checks of adapter, surface and profile, each depending on the ones before. */
  method CheckHierarchy(t: Target, c: TransitionCatalog)
    returns (first: Check, second: Check, third: Check,
             adapter: Option<RegistryEntity>, surface: Option<RegistryEntity>, profile: Option<RegistryEntity>)
    ensures first.component == ADAPTER && second.component == SURFACE && third.component == PROFILE
    ensures first.status.READY? <==> adapter.Some?
    ensures second.status.READY? <==> surface.Some?
    ensures third.status.READY? <==> profile.Some?
    ensures forall e :: adapter == Some(e) <==> AdapterReady(t, c, e)
    ensures forall e :: surface == Some(e) <==> adapter.Some? && SurfaceReady(t, c, adapter.value.id, e)
    ensures forall e :: profile == Some(e) <==>
              adapter.Some? && surface.Some? && ProfileReady(t, c, adapter.value.id, surface.value.id, e)
    ensures first.status.UNKNOWN? <==> Reported(c, ADAPTER)
    ensures second.status.UNKNOWN? <==> adapter.Some? && Reported(c, SURFACE)
    ensures third.status.UNKNOWN? <==> surface.Some? && Reported(c, PROFILE)
  {
    surface, profile := None, None;
    first, adapter := CheckEntity(c, ADAPTER, Items(c.adapters), AdapterScope(t),
      "ADAPTER_MISSING", "ADAPTER_CONFLICT", "ADAPTER_DISABLED", "ADAPTER_READY");
    if adapter.None? {
      second := Check(SURFACE, MISMATCH, "SURFACE_DEPENDENCY_UNAVAILABLE");
    } else {
      second, surface := CheckEntity(c, SURFACE, Items(c.surfaces), SurfaceScope(t, adapter.value.id),
        "SURFACE_MISSING", "SURFACE_CONFLICT", "SURFACE_DISABLED", "SURFACE_READY");
    }
    if adapter.None? || surface.None? {
      third := Check(PROFILE, MISMATCH, "PROFILE_DEPENDENCY_UNAVAILABLE");
    } else {
      third, profile := CheckEntity(c, PROFILE, Items(c.profiles),
        EntityScope(t, adapter.value.id, surface.value.id),
        "PROFILE_MISSING", "PROFILE_CONFLICT", "PROFILE_DISABLED", "PROFILE_READY");
    }
  }

  lemma EntitiesAreTheOnes(t: Target, c: TransitionCatalog, adapter: Option<RegistryEntity>,
                           surface: Option<RegistryEntity>, profile: Option<RegistryEntity>)
    requires forall e :: adapter == Some(e) <==> AdapterReady(t, c, e)
    requires forall e :: surface == Some(e) <==> adapter.Some? && SurfaceReady(t, c, adapter.value.id, e)
    requires forall e :: profile == Some(e) <==>
               adapter.Some? && surface.Some? && ProfileReady(t, c, adapter.value.id, surface.value.id, e)
    ensures AnyAdapter(t, c) <==> adapter.Some?
    ensures AnySurface(t, c) <==> surface.Some?
    ensures AnyProfile(t, c) <==> profile.Some?
  {
    assert adapter.Some? ==> AdapterReady(t, c, adapter.value);
    assert surface.Some? ==> SurfaceReady(t, c, adapter.value.id, surface.value);
    assert profile.Some? ==> ProfileReady(t, c, adapter.value.id, surface.value.id, profile.value);
  }

  /** The five checks that depend on one another, from the adapter to the assignment. */
  method CheckRegistry(t: Target, c: TransitionCatalog)
    returns (first: Check, second: Check, third: Check, fourth: Check, fifth: Check)
    ensures first.component == ADAPTER && second.component == SURFACE && third.component == PROFILE
    ensures fourth.component == PROFILE_REVISION && fifth.component == ASSIGNMENT
    ensures RegistryReady(t, c) <==>
              && first.status.READY? && second.status.READY? && third.status.READY?
              && fourth.status.READY? && fifth.status.READY?
    ensures RegistryUnknown(t, c) <==>
              || first.status.UNKNOWN? || second.status.UNKNOWN? || third.status.UNKNOWN?
              || fourth.status.UNKNOWN? || fifth.status.UNKNOWN?
  {
    var adapter, surface, profile;
    first, second, third, adapter, surface, profile := CheckHierarchy(t, c);
    fourth := Check(PROFILE_REVISION, MISMATCH, "PROFILE_REVISION_DEPENDENCY_UNAVAILABLE");
    fifth := Check(ASSIGNMENT, MISMATCH, "ASSIGNMENT_DEPENDENCY_UNAVAILABLE");
    var revision := None;
    EntitiesAreTheOnes(t, c, adapter, surface, profile);
    if profile.Some? {
      fourth, revision := CheckRevision(t, c);
    }
    if adapter.Some? && surface.Some? && revision.Some? {
      fifth := CheckAssignment(t, c, adapter.value.id, surface.value.id, revision.value.id);
    }
    if fifth.status.READY? {
      ghost var a :| AssignmentReady(t, c, adapter.value.id, surface.value.id, revision.value.id, a);
      assert ChainReady(t, c, adapter.value, surface.value, profile.value, revision.value, a);
    }
    if RegistryReady(t, c) {
      ghost var e, s, p, r, a :| ChainReady(t, c, e, s, p, r, a);
      assert adapter == Some(e) && surface == Some(s) && profile == Some(p) && revision == Some(r);
    }
  }
}
