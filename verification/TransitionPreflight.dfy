/** The transition preflight: collect the catalog, then analyze it. */
module TransitionPreflight {
  // The report against what the API serves.

  import opened Prelude
  import opened Store1Types
  import opened TransitionTypes
  import opened TransitionAnalyzer
  import opened CatalogPages
  import opened TransitionCollection

  ghost predicate ServesPart<T(!new)>(get: Option<string> -> Response<T>, part: Option<seq<T>>) {
    part.Some? && Serves(get, part.value)
  }

  ghost predicate ServesBelow(api: Api, a: string, s: string, c: TransitionCatalog) {
    ServesPart(api.profiles(a, s), c.profiles) && ServesPart(api.assignments(a, s), c.assignments)
  }

  /** The API serves this catalog: every part that the target asks for, without a failure. */
  ghost predicate ServesCatalog(t: Target, api: Api, c: TransitionCatalog) {
    var adapter, surface, profile := TheAdapter(t, c), TheSurface(t, c), TheProfile(t, c);
    && c.errors == []
    && c.release.Some? && c.release == Given(api.release) && c.config.Some? && c.config == Given(api.config)
    && ServesPart(api.policies, c.policies) && ServesPart(api.adapters, c.adapters)
    && (if adapter.Some? then ServesPart(api.surfaces(adapter.value.id), c.surfaces) else c.surfaces.None?)
    && (if surface.Some? then ServesBelow(api, adapter.value.id, surface.value.id, c)
        else c.profiles.None? && c.assignments.None?)
    && (if profile.Some? then ServesPart(api.revisions(profile.value.id), c.revisions) else c.revisions.None?)
  }

  lemma SameParts<T(!new)>(get: Option<string> -> Response<T>, got: Option<seq<T>>, served: Option<seq<T>>)
    requires Got(get, got) && ServesPart(get, served)
    ensures got == served
  {
    GotWhatIsServed(get, got, served.value);
  }

  /** What is collected from an API that serves a catalog is that catalog. */
  lemma CollectsWhatIsServed(t: Target, api: Api, c: TransitionCatalog, served: TransitionCatalog)
    requires AllTold(t, c) && AllGot(t, api, c) && ServesCatalog(t, api, served)
    ensures c == served
  {
    SameParts(api.policies, c.policies, served.policies);
    SameParts(api.adapters, c.adapters, served.adapters);
    assert TheAdapter(t, c) == TheAdapter(t, served);
    CollectsBelowAdapter(t, api, c, served);
    NothingToTell(t, c);
  }

  lemma CollectsBelowAdapter(t: Target, api: Api, c: TransitionCatalog, served: TransitionCatalog)
    requires AllGot(t, api, c) && ServesCatalog(t, api, served) && c.adapters == served.adapters
    ensures c.surfaces == served.surfaces && c.profiles == served.profiles
    ensures c.assignments == served.assignments && c.revisions == served.revisions
  {
    if TheAdapter(t, c).Some? {
      SameParts(api.surfaces(TheAdapter(t, c).value.id), c.surfaces, served.surfaces);
    }
    assert TheSurface(t, c) == TheSurface(t, served);
    if TheSurface(t, c).Some? {
      var a, s := TheAdapter(t, c).value.id, TheSurface(t, c).value.id;
      SameParts(api.profiles(a, s), c.profiles, served.profiles);
      SameParts(api.assignments(a, s), c.assignments, served.assignments);
    }
    assert TheProfile(t, c) == TheProfile(t, served);
    if TheProfile(t, c).Some? {
      SameParts(api.revisions(TheProfile(t, c).value.id), c.revisions, served.revisions);
    }
  }

  /** Everything that was asked for has been read. */
  predicate AllRead(t: Target, c: TransitionCatalog) {
    && c.release.Some? && c.policies.Some? && c.config.Some? && c.adapters.Some?
    && (TheAdapter(t, c).Some? ==> c.surfaces.Some?)
    && (TheSurface(t, c).Some? ==> c.profiles.Some? && c.assignments.Some?)
    && (TheProfile(t, c).Some? ==> c.revisions.Some?)
  }

  lemma NothingToTell(t: Target, c: TransitionCatalog)
    requires AllTold(t, c) && AllRead(t, c)
    ensures c.errors == []
  {
    HasFirst(c.errors);
  }

  lemma HasFirst(errors: seq<Issue>)
    ensures errors != [] ==> exists s :: HasIssue(errors, s)
  {
    if errors != [] {
      assert HasIssue(errors, errors[0].scope);
    }
  }

  /** No request that could be made fails. */
  ghost predicate NeverFails(api: Api) {
    && Given(api.release).Some? && Given(api.config).Some?
    && Servable(api.policies) && Servable(api.adapters)
    && (forall a :: Servable(api.surfaces(a))) && (forall a, s :: Servable(api.profiles(a, s)))
    && (forall a, s :: Servable(api.assignments(a, s))) && (forall p :: Servable(api.revisions(p)))
  }

  ghost predicate Servable<T(!new)>(get: Option<string> -> Response<T>) {
    exists items :: Serves(get, items)
  }

  lemma ServableIsServed<T(!new)>(get: Option<string> -> Response<T>, part: Option<seq<T>>)
    requires Servable(get) && Got(get, part)
    ensures ServesPart(get, part)
  {
    var items :| Serves(get, items);
    GotWhatIsServed(get, part, items);
  }

  /** An API that never fails serves a catalog: the one that is collected. */
  lemma CollectedIsServed(t: Target, api: Api, c: TransitionCatalog)
    requires AllTold(t, c) && AllGot(t, api, c) && NeverFails(api)
    ensures ServesCatalog(t, api, c)
  {
    ServableIsServed(api.policies, c.policies);
    ServableIsServed(api.adapters, c.adapters);
    if TheAdapter(t, c).Some? {
      ServableIsServed(api.surfaces(TheAdapter(t, c).value.id), c.surfaces);
    }
    if TheSurface(t, c).Some? {
      var a, s := TheAdapter(t, c).value.id, TheSurface(t, c).value.id;
      ServableIsServed(api.profiles(a, s), c.profiles);
      ServableIsServed(api.assignments(a, s), c.assignments);
    }
    if TheProfile(t, c).Some? {
      ServableIsServed(api.revisions(TheProfile(t, c).value.id), c.revisions);
    }
    NothingToTell(t, c);
  }

  lemma NothingUnknown(t: Target, c: TransitionCatalog)
    requires c.errors == []
    ensures !TransitionUnknown(t, c)
  {
  }

  /**
   * `runStoreReleaseTransitionPreflight`. Against an API that serves a catalog the report is never UNKNOWN,
   * and READY exactly when that catalog is ready; an API that never fails serves one.
   */
  method RunTransitionPreflight(t: Target, api: Api) returns (checks: seq<Check>, status: CheckStatus, ghost c: TransitionCatalog)
    ensures InFixedOrder(checks)
    ensures AllTold(t, c) && AllGot(t, api, c)
    ensures (status.READY? <==> TransitionReady(t, c)) && (status.UNKNOWN? <==> TransitionUnknown(t, c))
    ensures forall served | ServesCatalog(t, api, served) ::
              (status.READY? <==> TransitionReady(t, served)) && !status.UNKNOWN?
    ensures NeverFails(api) ==> ServesCatalog(t, api, c)
  {
    var catalog := CollectCatalog(t, api);
    c := catalog;
    checks, status := Analyze(t, catalog);
    forall served | ServesCatalog(t, api, served)
      ensures served == c && !TransitionUnknown(t, c)
    {
      CollectsWhatIsServed(t, api, c, served);
      NothingUnknown(t, c);
    }
    if NeverFails(api) {
      CollectedIsServed(t, api, c);
    }
  }
}
