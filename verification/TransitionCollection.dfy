/** Collecting the catalog that the release transition analyzer checks. */
module TransitionCollection {
  import opened Prelude
  import opened Selection
  import opened Store1Types
  import opened TransitionTypes
  import opened TransitionAnalyzer
  import opened CatalogPages
  import PagedServer

  /** The answer to the GET of one object. */
  datatype Fetched<+T> = Found(value: T) | NotFound | Refused(status: nat) | Malformed

  /** What the administration API answers, for the identifiers and the cursor of a path. */
  datatype Api = Api(
    release: Fetched<TransitionRelease>, policies: Option<string> -> Response<TransitionPolicy>,
    config: Fetched<Config>, adapters: Option<string> -> Response<RegistryEntity>,
    surfaces: string -> Option<string> -> Response<RegistryEntity>,
    profiles: (string, string) -> Option<string> -> Response<RegistryEntity>,
    revisions: string -> Option<string> -> Response<Revision>,
    assignments: (string, string) -> Option<string> -> Response<Assignment>)

  function Code(failure: Failure): string {
    match failure
    case HTTP(_) => "HTTP"
    case RESPONSE_INVALID => "RESPONSE_INVALID"
    case CURSOR_INVALID => "CURSOR_INVALID"
    case PAGINATION_LIMIT => "PAGINATION_LIMIT"
  }

  /** Something is reported for a part. */
  predicate HasIssue(errors: seq<Issue>, scope: Component) {
    exists i | 0 <= i < |errors| :: errors[i].scope == scope
  }

  /** One more part has been read, or its failure has been reported. */
  predicate ReportsOne<T>(before: seq<Issue>, after: seq<Issue>, scope: Component, read: Option<T>) {
    if read.Some? then after == before else |after| == |before| + 1 && after[..|before|] == before && after[|before|].scope == scope
  }

  /** What an answer says about an object: it, that there is none, or nothing. */
  function Given<T>(fetched: Fetched<T>): Option<Option<T>> {
    match fetched
    case Found(value) => Some(Some(value))
    case NotFound => Some(None)
    case _ => None
  }

  /** `readOne`: a missing object is no failure. */
  method ReadOne<T>(scope: Component, fetched: Fetched<T>, errors: seq<Issue>) returns (r: Option<Option<T>>, after: seq<Issue>)
    ensures ReportsOne(errors, after, scope, r)
    ensures r == Given(fetched)
  {
    match fetched
    case Found(value) => return Some(Some(value)), errors;
    case NotFound => return Some(None), errors;
    case Refused(_) => return None, errors + [Issue(scope, "HTTP")];
    case Malformed => return None, errors + [Issue(scope, "RESPONSE_INVALID")];
  }

  /** Pages that the server hands out to the end, if there are any. */
  lemma SomePages<T(!new)>(get: Option<string> -> Response<T>) returns (p: PagedServer.Pages<T>)
    ensures (exists items :: Serves(get, items)) ==>
              PagedServer.Honest(p) && Hands(get, p) && PagedServer.Length(p) <= MAX_PAGES
  {
    p := PagedServer.Last([]);
    if items :| Serves(get, items) {
      p :| PagedServer.Honest(p) && Hands(get, p) && PagedServer.Length(p) <= MAX_PAGES && PagedServer.Flatten(p) == items;
    }
  }

  method ReadAll<T(!new,==)>(scope: Component, get: Option<string> -> Response<T>, errors: seq<Issue>)
    returns (r: Option<seq<T>>, after: seq<Issue>)
    ensures ReportsOne(errors, after, scope, r) && Got(get, r)
  {
    var failure;
    ghost var trail;
    ghost var p := SomePages(get);
    r, failure, trail := ReadPages(get, p);
    after := if failure.Some? then errors + [Issue(scope, Code(failure.value))] else errors;
  }

  /** The parts that the next ones depend on. */
  function TheAdapter(t: Target, c: TransitionCatalog): Option<RegistryEntity> {
    var found := ExactOne(Items(c.adapters), AdapterScope(t));
    if found.One? then Some(found.value) else None
  }

  function TheSurface(t: Target, c: TransitionCatalog): Option<RegistryEntity> {
    if TheAdapter(t, c).None? then None
    else
      var found := ExactOne(Items(c.surfaces), SurfaceScope(t, TheAdapter(t, c).value.id));
      if found.One? then Some(found.value) else None
  }

  function TheProfile(t: Target, c: TransitionCatalog): Option<RegistryEntity> {
    if TheSurface(t, c).None? then None
    else
      var found := ExactOne(Items(c.profiles), EntityScope(t, TheAdapter(t, c).value.id, TheSurface(t, c).value.id));
      if found.One? then Some(found.value) else None
  }

  /** A part that is asked for is read, or its failure is reported; others are left unread. */
  ghost predicate Told(asked: bool, read: bool, errors: seq<Issue>, scope: Component) {
    (read ==> asked) && (asked && !read <==> HasIssue(errors, scope))
  }

  /** Every part is asked for as soon as what it depends on is known, and told about. */
  ghost predicate AllTold(t: Target, c: TransitionCatalog) {
    && Told(true, c.release.Some?, c.errors, RELEASE) && Told(true, c.policies.Some?, c.errors, POLICY)
    && Told(true, c.config.Some?, c.errors, CONFIG) && Told(true, c.adapters.Some?, c.errors, ADAPTER)
    && Told(TheAdapter(t, c).Some?, c.surfaces.Some?, c.errors, SURFACE)
    && Told(TheSurface(t, c).Some?, c.profiles.Some?, c.errors, PROFILE)
    && Told(TheProfile(t, c).Some?, c.revisions.Some?, c.errors, PROFILE_REVISION)
    && Told(TheSurface(t, c).Some?, c.assignments.Some?, c.errors, ASSIGNMENT)
  }

  /** Every part that is asked for is what the API gives for it, and others are left unread. */
  ghost predicate AllGot(t: Target, api: Api, c: TransitionCatalog) {
    var adapter, surface, profile := TheAdapter(t, c), TheSurface(t, c), TheProfile(t, c);
    && c.release == Given(api.release) && c.config == Given(api.config)
    && Got(api.policies, c.policies) && Got(api.adapters, c.adapters)
    && (if adapter.Some? then Got(api.surfaces(adapter.value.id), c.surfaces) else c.surfaces.None?)
    && (if surface.Some? then GotBelow(api, adapter.value.id, surface.value.id, c) else c.profiles.None? && c.assignments.None?)
    && (if profile.Some? then Got(api.revisions(profile.value.id), c.revisions) else c.revisions.None?)
  }

  ghost predicate GotBelow(api: Api, a: string, s: string, c: TransitionCatalog) {
    Got(api.profiles(a, s), c.profiles) && Got(api.assignments(a, s), c.assignments)
  }

  lemma OneReported<T>(before: seq<Issue>, after: seq<Issue>, scope: Component, read: Option<T>)
    requires ReportsOne(before, after, scope, read)
    ensures forall s :: HasIssue(after, s) <==> HasIssue(before, s) || (s == scope && read.None?)
  {
    forall s
      ensures HasIssue(after, s) <==> HasIssue(before, s) || (s == scope && read.None?)
    {
      if i :| 0 <= i < |before| && before[i].scope == s {
        assert read.None? ==> after[..|before|][i] == before[i];
        assert after[i].scope == s;
      }
      if i :| 0 <= i < |after| && after[i].scope == s {
        assert read.None? && i < |before| ==> after[..|before|][i] == before[i];
      }
    }
  }

  /** For every part whether its failure is reported. */
  datatype Failures = Failures(release: bool, policy: bool, config: bool, adapter: bool,
                               surface: bool, profile: bool, revision: bool, assignment: bool)

  const NO_FAILURES := Failures(false, false, false, false, false, false, false, false)

  predicate Has(f: Failures, scope: Component) {
    match scope
    case RELEASE => f.release
    case POLICY => f.policy
    case CONFIG => f.config
    case ADAPTER => f.adapter
    case SURFACE => f.surface
    case PROFILE => f.profile
    case PROFILE_REVISION => f.revision
    case ASSIGNMENT => f.assignment
  }

  function Mark(f: Failures, scope: Component): Failures {
    match scope
    case RELEASE => f.(release := true)
    case POLICY => f.(policy := true)
    case CONFIG => f.(config := true)
    case ADAPTER => f.(adapter := true)
    case SURFACE => f.(surface := true)
    case PROFILE => f.(profile := true)
    case PROFILE_REVISION => f.(revision := true)
    case ASSIGNMENT => f.(assignment := true)
  }

  function MarkIf(f: Failures, scope: Component, failed: bool): Failures {
    if failed then Mark(f, scope) else f
  }

  ghost predicate ReportsExactly(errors: seq<Issue>, f: Failures) {
    forall s :: HasIssue(errors, s) <==> Has(f, s)
  }

  lemma ReportGrows<T>(before: seq<Issue>, after: seq<Issue>, scope: Component, read: Option<T>, f: Failures)
    requires ReportsOne(before, after, scope, read) && ReportsExactly(before, f)
    ensures ReportsExactly(after, if read.None? then Mark(f, scope) else f)
  {
    OneReported(before, after, scope, read);
    forall s
      ensures Has(Mark(f, scope), s) <==> Has(f, s) || s == scope
    {
      MarkedHas(f, scope, s);
    }
  }

  lemma MarkedHas(f: Failures, scope: Component, s: Component)
    ensures Has(Mark(f, scope), s) <==> Has(f, s) || s == scope
  {
  }

  /** `readPage` with what has been reported before it and after it. */
  method ReadPart<T(!new,==)>(scope: Component, get: Option<string> -> Response<T>, errors: seq<Issue>, ghost f: Failures)
    returns (r: Option<seq<T>>, after: seq<Issue>)
    requires ReportsExactly(errors, f)
    ensures ReportsExactly(after, MarkIf(f, scope, r.None?)) && Got(get, r)
  {
    r, after := ReadAll(scope, get, errors);
    ReportGrows(errors, after, scope, r, f);
  }

  /** What is reported for the parts that are always asked for. */
  function BaseFailures(c: TransitionCatalog): Failures {
    NO_FAILURES.(release := c.release.None?, policy := c.policies.None?, config := c.config.None?, adapter := c.adapters.None?)
  }

  /** The parts that are always asked for. */
  method CollectBase(api: Api) returns (c: TransitionCatalog)
    ensures ReportsExactly(c.errors, BaseFailures(c))
    ensures c.surfaces.None? && c.profiles.None? && c.revisions.None? && c.assignments.None?
    ensures c.release == Given(api.release) && c.config == Given(api.config)
    ensures Got(api.policies, c.policies) && Got(api.adapters, c.adapters)
  {
    ghost var f := NO_FAILURES;
    var release, errors1 := ReadOne(RELEASE, api.release, []);
    ReportGrows([], errors1, RELEASE, release, f);
    f := f.(release := release.None?);
    var policies, errors2 := ReadPart(POLICY, api.policies, errors1, f);
    f := f.(policy := policies.None?);
    var config, errors3 := ReadOne(CONFIG, api.config, errors2);
    ReportGrows(errors2, errors3, CONFIG, config, f);
    f := f.(config := config.None?);
    var adapters, errors4 := ReadPart(ADAPTER, api.adapters, errors3, f);
    c := TransitionCatalog(release, policies, config, adapters, None, None, None, None, errors4);
  }

  /** The revisions of the profile, if there is exactly one. */
  method ReadRevisions(api: Api, id: Option<string>, errors: seq<Issue>, ghost f: Failures)
    returns (r: Option<seq<Revision>>, after: seq<Issue>)
    requires ReportsExactly(errors, f)
    ensures ReportsExactly(after, MarkIf(f, PROFILE_REVISION, id.Some? && r.None?))
    ensures if id.Some? then Got(api.revisions(id.value), r) else r.None?
  {
    if id.None? {
      return None, errors;
    }
    r, after := ReadPart(PROFILE_REVISION, api.revisions(id.value), errors, f);
  }

  /** The collections below the surface. */
  method ReadBelow(t: Target, api: Api, a: string, s: string, errors: seq<Issue>, ghost f: Failures)
    returns (profiles: Option<seq<RegistryEntity>>, revisions: Option<seq<Revision>>, assignments: Option<seq<Assignment>>, after: seq<Issue>)
    requires ReportsExactly(errors, f)
    ensures ReportsExactly(after, MarksBelow(f, profiles.None?, OneId(t, a, s, profiles).Some? && revisions.None?,
                                             assignments.None?))
    ensures Got(api.profiles(a, s), profiles) && Got(api.assignments(a, s), assignments)
    ensures var id := OneId(t, a, s, profiles);
            if id.Some? then Got(api.revisions(id.value), revisions) else revisions.None?
  {
    var errors1, errors2;
    profiles, errors1 := ReadPart(PROFILE, api.profiles(a, s), errors, f);
    ghost var g := MarkIf(f, PROFILE, profiles.None?);
    var id := OneId(t, a, s, profiles);
    revisions, errors2 := ReadRevisions(api, id, errors1, g);
    g := MarkIf(g, PROFILE_REVISION, id.Some? && revisions.None?);
    assignments, after := ReadPart(ASSIGNMENT, api.assignments(a, s), errors2, g);
  }

  function MarksBelow(f: Failures, profile: bool, revision: bool, assignment: bool): Failures {
    MarkIf(MarkIf(MarkIf(f, PROFILE, profile), PROFILE_REVISION, revision), ASSIGNMENT, assignment)
  }

  lemma MarksSet(f: Failures, profile: bool, revision: bool, assignment: bool)
    requires !f.profile && !f.revision && !f.assignment
    ensures MarksBelow(f, profile, revision, assignment) == f.(profile := profile, revision := revision, assignment := assignment)
  {
  }

  /** The id of the profile, if exactly one is active in the scope. */
  function OneId(t: Target, a: string, s: string, profiles: Option<seq<RegistryEntity>>): Option<string> {
    var profile := ExactOne(Items(profiles), EntityScope(t, a, s));
    if profile.One? then Some(profile.value.id) else None
  }

  /** What is below the surface. */
  method CollectBelow(t: Target, api: Api, base: TransitionCatalog, a: string, s: string, ghost f: Failures)
    returns (c: TransitionCatalog)
    requires ReportsExactly(base.errors, f) && !f.profile && !f.revision && !f.assignment
    requires TheAdapter(t, base).Some? && TheAdapter(t, base).value.id == a
    requires TheSurface(t, base).Some? && TheSurface(t, base).value.id == s
    ensures c == base.(profiles := c.profiles, revisions := c.revisions, assignments := c.assignments, errors := c.errors)
    ensures ReportsExactly(c.errors, f.(profile := c.profiles.None?, assignment := c.assignments.None?,
                                        revision := TheProfile(t, c).Some? && c.revisions.None?))
    ensures GotBelow(api, a, s, c)
    ensures var profile := TheProfile(t, c);
            if profile.Some? then Got(api.revisions(profile.value.id), c.revisions) else c.revisions.None?
  {
    var profiles, revisions, assignments, errors := ReadBelow(t, api, a, s, base.errors, f);
    c := base.(profiles := profiles, revisions := revisions, assignments := assignments, errors := errors);
    SameProfile(t, base, c, a, s);
    MarksSet(f, c.profiles.None?, OneId(t, a, s, profiles).Some? && c.revisions.None?, c.assignments.None?);
  }

  lemma SameProfile(t: Target, base: TransitionCatalog, c: TransitionCatalog, a: string, s: string)
    requires TheAdapter(t, base).Some? && TheAdapter(t, base).value.id == a
    requires TheSurface(t, base).Some? && TheSurface(t, base).value.id == s
    requires c.adapters == base.adapters && c.surfaces == base.surfaces
    ensures TheProfile(t, c).Some? <==> OneId(t, a, s, c.profiles).Some?
    ensures TheProfile(t, c).Some? ==> Some(TheProfile(t, c).value.id) == OneId(t, a, s, c.profiles)
  {
  }

  /** What is reported for all parts. */
  ghost function AllFailures(t: Target, c: TransitionCatalog): Failures {
    var a, f, p := TheAdapter(t, c).Some?, TheSurface(t, c).Some?, TheProfile(t, c).Some?;
    Failures(c.release.None?, c.policies.None?, c.config.None?, c.adapters.None?, a && c.surfaces.None?,
             f && c.profiles.None?, p && c.revisions.None?, f && c.assignments.None?)
  }

  lemma FailuresTold(t: Target, c: TransitionCatalog)
    requires ReportsExactly(c.errors, AllFailures(t, c))
    requires c.surfaces.Some? ==> TheAdapter(t, c).Some?
    requires c.profiles.Some? || c.assignments.Some? ==> TheSurface(t, c).Some?
    requires c.revisions.Some? ==> TheProfile(t, c).Some?
    ensures AllTold(t, c)
  {
    var f := AllFailures(t, c);
    assert forall s :: HasIssue(c.errors, s) <==> Has(f, s);
  }

  /** `collectStoreReleaseTransitionCatalog` */
  method CollectCatalog(t: Target, api: Api) returns (c: TransitionCatalog)
    ensures AllTold(t, c) && AllGot(t, api, c)
  {
    c := CollectBase(api);
    ghost var f := BaseFailures(c);
    var adapter := ExactOne(Items(c.adapters), AdapterScope(t));
    if !adapter.One? {
      FailuresTold(t, c);
      return;
    }
    var a := adapter.value.id;
    var surfaces, errors := ReadPart(SURFACE, api.surfaces(a), c.errors, f);
    f := f.(surface := surfaces.None?);
    c := c.(surfaces := surfaces, errors := errors);
    var surface := ExactOne(Items(surfaces), SurfaceScope(t, a));
    if !surface.One? {
      FailuresTold(t, c);
      return;
    }
    c := CollectBelow(t, api, c, a, surface.value.id, f);
    FailuresTold(t, c);
  }
}
