/** When a catalog is ready, in full. */
module TransitionOutcomes {
  import opened Prelude
  import opened Selection
  import opened Store1Types
  import opened TransitionTypes
  import opened ReleaseArtifact
  import opened TransitionAnalyzer

  /** The release of the target's version, bound to its package for its contract and browser. */
  ghost predicate ReleaseFits(t: Target, r: TransitionRelease) {
    && r.release.version == t.productVersion && r.release.channel == STABLE
    && t.contract in r.release.contracts && t.browser in r.release.browsers
    && RowsCover(r) && (SharedMode(r, t.artifact) || OwnMode(r, t.browser, t.artifact))
  }

  predicate OfScope(t: Target, p: TransitionPolicy) {
    p.policy.key == t.policyKey && p.policy.contract == t.contract && p.policy.browser == Some(t.browser)
  }

  /** Of the policies in scope the first one with the highest revision. */
  predicate IsLatest(t: Target, policies: seq<TransitionPolicy>, p: TransitionPolicy) {
    exists i | 0 <= i < |policies| ::
      && policies[i] == p && OfScope(t, p)
      && (forall j | 0 <= j < |policies| && OfScope(t, policies[j]) :: policies[j].revision <= p.revision)
      && (forall j | 0 <= j < i && OfScope(t, policies[j]) :: policies[j].revision < p.revision)
  }

  predicate PolicyFits(t: Target, p: Policy) {
    p == Policy(p.id, t.policyKey, t.contract, Some(t.browser), Some(t.productVersion), Some(t.productVersion),
                Some(t.minimumBrowser), false, None, [])
  }

  /** A signed config in use that includes the policy. */
  predicate ConfigFits(t: Target, config: Config, policyId: string) {
    && config.contract == t.contract && config.bootstrapV2 && config.signingKeyState == KEY_ACTIVE
    && policyId in config.policyIds
  }

  function AdapterKey(t: Target): RegistryEntity -> bool {
    (e: RegistryEntity) => e.key == t.adapterKey
  }

  function SurfaceKey(t: Target, adapterId: string): RegistryEntity -> bool {
    (e: RegistryEntity) => e.adapterId == Some(adapterId) && e.key == t.surfaceKey
  }

  function ProfileKey(t: Target, adapterId: string, surfaceId: string): RegistryEntity -> bool {
    (e: RegistryEntity) => e == RegistryEntity(e.id, t.profileKey, e.status, Some(adapterId), Some(surfaceId), None)
  }

  function TargetContent(t: Target): Revision -> bool {
    (v: Revision) => t.profileContent == v.content
  }

  function AccountScope(t: Target, adapterId: string, surfaceId: string): Assignment -> bool {
    (a: Assignment) => a == Assignment(a.id, adapterId, surfaceId, None, t.browser, ACCOUNT, a.latest)
  }

  /** Each the only one of its kind, active or published, below the one before, and everybody assigned to the last. */
  predicate IsChain(t: Target, c: TransitionCatalog, adapter: RegistryEntity, surface: RegistryEntity,
                    profile: RegistryEntity, revision: Revision, a: Assignment)
  {
    && IsOnly(Items(c.adapters), AdapterKey(t), adapter) && adapter.status == ACTIVE
    && IsOnly(Items(c.surfaces), SurfaceKey(t, adapter.id), surface) && surface.status == ACTIVE
    && IsOnly(Items(c.profiles), ProfileKey(t, adapter.id, surface.id), profile) && profile.status == ACTIVE
    && IsOnly(Items(c.revisions), TargetContent(t), revision) && revision.state == PUBLISHED
    && IsOnly(Items(c.assignments), AccountScope(t, adapter.id, surface.id), a)
    && a.latest.Some? && a.latest.value == Latest(a.latest.value.revision, DIRECT, revision.id, None, 0)
  }

  lemma {:induction false} LatestIsFirst(t: Target, policies: seq<TransitionPolicy>)
    ensures LatestPolicy(t, policies).Some? ==> IsLatest(t, policies, LatestPolicy(t, policies).value)
  {
    if policies != [] {
      var rest := policies[1..];
      LatestIsFirst(t, rest);
      var latest := LatestPolicy(t, policies);
      if latest.Some? {
        if latest.value == policies[0] && PolicyInScope(t, policies[0]) {
          FirstIsLatest(t, policies);
        } else {
          LatestLater(t, policies, latest.value);
        }
      }
    }
  }

  lemma FirstIsLatest(t: Target, policies: seq<TransitionPolicy>)
    requires policies != [] && OfScope(t, policies[0])
    requires forall p | p in policies && OfScope(t, p) :: p.revision <= policies[0].revision
    ensures IsLatest(t, policies, policies[0])
  {
    assert forall j | 0 <= j < |policies| :: policies[j] in policies;
  }

  lemma LatestLater(t: Target, policies: seq<TransitionPolicy>, p: TransitionPolicy)
    requires policies != [] && IsLatest(t, policies[1..], p)
    requires OfScope(t, policies[0]) ==> policies[0].revision < p.revision
    ensures IsLatest(t, policies, p)
  {
    var rest := policies[1..];
    var i :| 0 <= i < |rest| && rest[i] == p
             && (forall j | 0 <= j < |rest| && OfScope(t, rest[j]) :: rest[j].revision <= p.revision)
             && (forall j | 0 <= j < i && OfScope(t, rest[j]) :: rest[j].revision < p.revision);
    assert policies[i + 1] == p;
    forall j | 0 < j < |policies|
      ensures policies[j] == rest[j - 1]
    {
    }
  }

  lemma OnlyOneLatest(t: Target, policies: seq<TransitionPolicy>, p: TransitionPolicy, q: TransitionPolicy)
    requires IsLatest(t, policies, p) && IsLatest(t, policies, q)
    ensures p == q
  {
  }

  lemma LatestExactly(t: Target, policies: seq<TransitionPolicy>, p: TransitionPolicy)
    ensures LatestPolicy(t, policies) == Some(p) <==> IsLatest(t, policies, p)
  {
    LatestIsFirst(t, policies);
    if IsLatest(t, policies, p) {
      assert p in policies;
      OnlyOneLatest(t, policies, p, LatestPolicy(t, policies).value);
    }
  }

  lemma NoIssues(c: TransitionCatalog)
    ensures c.errors == [] <==>
              && !Reported(c, RELEASE) && !Reported(c, POLICY) && !Reported(c, CONFIG) && !Reported(c, ADAPTER)
              && !Reported(c, SURFACE) && !Reported(c, PROFILE) && !Reported(c, PROFILE_REVISION) && !Reported(c, ASSIGNMENT)
  {
    if c.errors != [] {
      assert Reported(c, c.errors[0].scope);
    }
  }

  lemma ReleaseExactly(t: Target, c: TransitionCatalog)
    requires c.errors == []
    ensures ReleaseReady(t, c) <==> c.release.Some? && c.release.value.Some? && ReleaseFits(t, c.release.value.value)
  {
    if c.release.Some? && c.release.value.Some? {
      ClassifiedExactly(c.release.value.value, t.browser, t.artifact);
    }
  }

  lemma PolicyExactly(t: Target, c: TransitionCatalog)
    requires c.errors == []
    ensures PolicyReady(t, c) && ConfigReady(t, c) <==>
              && c.config.Some? && c.config.value.Some?
              && exists p :: IsLatest(t, Items(c.policies), p) && PolicyFits(t, p.policy)
                             && ConfigFits(t, c.config.value.value, p.policy.id)
  {
    var latest := LatestPolicy(t, Items(c.policies));
    if latest.Some? {
      LatestIsFirst(t, Items(c.policies));
    }
    forall p | IsLatest(t, Items(c.policies), p)
      ensures latest == Some(p)
    {
      LatestExactly(t, Items(c.policies), p);
    }
  }

  lemma ChainExactly(t: Target, c: TransitionCatalog, adapter: RegistryEntity, surface: RegistryEntity,
                     profile: RegistryEntity, revision: Revision, a: Assignment)
    requires c.errors == []
    ensures ChainReady(t, c, adapter, surface, profile, revision, a) <==> IsChain(t, c, adapter, surface, profile, revision, a)
  {
    SelectedExactly(Items(c.adapters), AdapterScope(t), AdapterKey(t));
    SelectedExactly(Items(c.surfaces), SurfaceScope(t, adapter.id), SurfaceKey(t, adapter.id));
    SelectedExactly(Items(c.profiles), EntityScope(t, adapter.id, surface.id), ProfileKey(t, adapter.id, surface.id));
    SelectedExactly(Items(c.revisions), ContentScope(t), TargetContent(t));
    SelectedExactly(Items(c.assignments), BrowserScope(t, adapter.id, surface.id), AccountScope(t, adapter.id, surface.id));
  }

  lemma RegistryExactly(t: Target, c: TransitionCatalog)
    requires c.errors == []
    ensures RegistryReady(t, c) <==>
              exists adapter, surface, profile, revision, a :: IsChain(t, c, adapter, surface, profile, revision, a)
  {
    forall adapter, surface, profile, revision, a
      ensures ChainReady(t, c, adapter, surface, profile, revision, a) <==> IsChain(t, c, adapter, surface, profile, revision, a)
    {
      ChainExactly(t, c, adapter, surface, profile, revision, a);
    }
  }

  lemma ReadyHasNoIssues(t: Target, c: TransitionCatalog)
    requires TransitionReady(t, c)
    ensures c.errors == []
  {
    var adapter, surface, profile, revision, a :| ChainReady(t, c, adapter, surface, profile, revision, a);
    NoIssues(c);
  }

  /** The report is READY exactly for a catalog that was read without an issue and is what the target asks for. */
  lemma ReadyExactly(t: Target, c: TransitionCatalog)
    ensures TransitionReady(t, c) <==>
              && c.errors == [] && c.release.Some? && c.release.value.Some? && ReleaseFits(t, c.release.value.value)
              && c.config.Some? && c.config.value.Some?
              && (exists p :: IsLatest(t, Items(c.policies), p) && PolicyFits(t, p.policy)
                              && ConfigFits(t, c.config.value.value, p.policy.id))
              && exists adapter, surface, profile, revision, a :: IsChain(t, c, adapter, surface, profile, revision, a)
  {
    if TransitionReady(t, c) {
      ReadyHasNoIssues(t, c);
    }
    if c.errors == [] {
      ReleaseExactly(t, c);
      PolicyExactly(t, c);
      RegistryExactly(t, c);
    }
  }
}
