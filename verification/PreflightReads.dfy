/** What one read of the read-only planner loop does to everything read so far. */
module PreflightReads {
  import opened Prelude
  import opened Selection
  import opened Store1Types
  import opened Store1Planner
  import opened PagedServer

  /** What the administration API answers while the loop runs; the catalog stands still meanwhile. */
  datatype Server = Server(
    config: Option<Config>, release: Option<Release>, policies: seq<Policy>, adapters: Pages<Entity>,
    surfaces: string -> Pages<Entity>, profiles: (string, string) -> Pages<Profile>,
    revisions: string -> Pages<Revision>, assignments: (string, string) -> Pages<Assignment>)

  function Added<T>(field: Collection<T>, page: Option<Pages<T>>, store: Collection<T> -> Readback): Result<Readback> {
    if page.Some? then Ok(store(Extend(field, page.value))) else Err("STORE1_REMOTE_READ_FAILED")
  }

  /** `capturePlannerRead` of what the server answers on a path. */
  function Capture(s: Server, path: ReadPath, r: Readback): Result<Readback> {
    match path
    case ReleasePath => Ok(r.(release := Some(s.release)))
    case PoliciesPath => Ok(r.(policies := Some(s.policies)))
    case ConfigPath => Ok(r.(config := Some(s.config)))
    case AdaptersPath(cursor) => Added(r.adapters, Serve(s.adapters, cursor), c => r.(adapters := c))
    case SurfacesPath(a, cursor) => Added(r.surfaces, Serve(s.surfaces(a), cursor), c => r.(surfaces := c))
    case ProfilesPath(a, f, cursor) => Added(r.profiles, Serve(s.profiles(a, f), cursor), c => r.(profiles := c))
    case RevisionsPath(p, cursor) => Added(r.revisions, Serve(s.revisions(p), cursor), c => r.(revisions := c))
    case AssignmentsPath(a, f, cursor) =>
      Added(r.assignments, Serve(s.assignments(a, f), cursor), c => r.(assignments := c))
    case _ => Err("STORE1_UNHANDLED_READ_PATH")
  }

  /** The collections that a complete read goes through. */
  function AdapterId(s: Server): string {
    var found := ExactOne(Flatten(s.adapters), IsStore1);
    if found.One? then found.value.id else ""
  }

  function SurfacePages(s: Server): Pages<Entity> {
    s.surfaces(AdapterId(s))
  }

  function SurfaceId(s: Server): string {
    var found := ExactOne(Flatten(SurfacePages(s)), IsStore1);
    if found.One? then found.value.id else ""
  }

  function ProfilePages(s: Server): Pages<Profile> {
    s.profiles(AdapterId(s), SurfaceId(s))
  }

  function ProfileId(s: Server): string {
    var found := ExactOne(Flatten(ProfilePages(s)), ProfileScope(AdapterId(s), SurfaceId(s)));
    if found.One? then found.value.id else ""
  }

  function RevisionPages(s: Server): Pages<Revision> {
    s.revisions(ProfileId(s))
  }

  function AssignmentPages(s: Server): Pages<Assignment> {
    s.assignments(AdapterId(s), SurfaceId(s))
  }

  /** Everything there is to read, as one page each. */
  function Full(s: Server, r: Readback): Readback {
    r.(release := Some(s.release), policies := Some(s.policies),
       adapters := Whole(Flatten(s.adapters)), surfaces := Whole(Flatten(SurfacePages(s))),
       profiles := Whole(Flatten(ProfilePages(s))), revisions := Whole(Flatten(RevisionPages(s))),
       assignments := Whole(Flatten(AssignmentPages(s))))
  }

  predicate HonestServer(s: Server) {
    && Honest(s.adapters) && Honest(SurfacePages(s)) && Honest(ProfilePages(s))
    && Honest(RevisionPages(s)) && Honest(AssignmentPages(s))
  }

  /** Every field holds a beginning of its own collection. */
  predicate Reading(s: Server, r: Readback) {
    && r.release in {None, Some(s.release)} && r.policies in {None, Some(s.policies)}
    && Progress(r.adapters, s.adapters) && Progress(r.surfaces, SurfacePages(s))
    && Progress(r.profiles, ProfilePages(s)) && Progress(r.revisions, RevisionPages(s))
    && Progress(r.assignments, AssignmentPages(s))
  }

  /** The parts of the catalog in the order in which the plan needs them. */
  datatype Part = RELEASES | POLICIES | ADAPTERS | SURFACES | PROFILES | REVISIONS | ASSIGNMENTS

  /** How many reads each part still needs. */
  datatype Lefts = Lefts(release: nat, policies: nat, adapters: nat, surfaces: nat,
                         profiles: nat, revisions: nat, assignments: nat)

  function LeftsOf(s: Server, r: Readback): Lefts
    requires Reading(s, r)
  {
    Lefts(if r.release.None? then 1 else 0, if r.policies.None? then 1 else 0,
          Left(r.adapters, s.adapters), Left(r.surfaces, SurfacePages(s)), Left(r.profiles, ProfilePages(s)),
          Left(r.revisions, RevisionPages(s)), Left(r.assignments, AssignmentPages(s)))
  }

  /** The part of the registry, or of the whole catalog, that decides the plan. */
  function RegistryLast(s: Server, full: Readback): Part {
    FirstStop(AdapterStage(full).Stop?, SurfaceStage(full, AdapterId(s)).Stop?,
              ProfileStage(full, AdapterId(s), SurfaceId(s)).Stop?, RevisionStage(full, ProfileId(s)).Stop?)
  }

  function FirstStop(adapter: bool, surface: bool, profile: bool, revision: bool): Part {
    if adapter then ADAPTERS else if surface then SURFACES else if profile then PROFILES
    else if revision then REVISIONS else ASSIGNMENTS
  }

  function LastPart(s: Server, full: Readback, config: Config): Part {
    if ReleaseStage(full).Stop? then RELEASES
    else if PolicyStage(full, config).Stop? then POLICIES
    else RegistryLast(s, full)
  }

  /** All reads still to come up to the part that decides. */
  function Total(l: Lefts, last: Part): nat {
    l.release + if last.RELEASES? then 0 else
    l.policies + if last.POLICIES? then 0 else
    l.adapters + if last.ADAPTERS? then 0 else
    l.surfaces + if last.SURFACES? then 0 else
    l.profiles + if last.PROFILES? then 0 else
    l.revisions + if last.REVISIONS? then 0 else l.assignments
  }

  /** The part that is read next. */
  function Current(l: Lefts, last: Part): Option<Part> {
    if l.release > 0 then Some(RELEASES) else if last.RELEASES? then None
    else if l.policies > 0 then Some(POLICIES) else if last.POLICIES? then None
    else if l.adapters > 0 then Some(ADAPTERS) else if last.ADAPTERS? then None
    else if l.surfaces > 0 then Some(SURFACES) else if last.SURFACES? then None
    else if l.profiles > 0 then Some(PROFILES) else if last.PROFILES? then None
    else if l.revisions > 0 then Some(REVISIONS) else if last.REVISIONS? then None
    else if l.assignments > 0 then Some(ASSIGNMENTS) else None
  }

  function LeftIn(l: Lefts, part: Part): nat {
    match part
    case RELEASES => l.release
    case POLICIES => l.policies
    case ADAPTERS => l.adapters
    case SURFACES => l.surfaces
    case PROFILES => l.profiles
    case REVISIONS => l.revisions
    case ASSIGNMENTS => l.assignments
  }

  function OneLess(l: Lefts, part: Part): Lefts
    requires LeftIn(l, part) > 0
  {
    match part
    case RELEASES => l.(release := l.release - 1)
    case POLICIES => l.(policies := l.policies - 1)
    case ADAPTERS => l.(adapters := l.adapters - 1)
    case SURFACES => l.(surfaces := l.surfaces - 1)
    case PROFILES => l.(profiles := l.profiles - 1)
    case REVISIONS => l.(revisions := l.revisions - 1)
    case ASSIGNMENTS => l.(assignments := l.assignments - 1)
  }

  lemma TotalDrops(l: Lefts, last: Part)
    ensures var part := Current(l, last);
            if part.Some? then LeftIn(l, part.value) > 0 && Total(OneLess(l, part.value), last) == Total(l, last) - 1
            else Total(l, last) == 0
  {
  }

  /** Where the next page of a part is. */
  function PathOf(s: Server, r: Readback, part: Part): ReadPath
    requires Reading(s, r)
  {
    match part
    case RELEASES => ReleasePath
    case POLICIES => PoliciesPath
    case ADAPTERS => AdaptersPath(NextCursor(r.adapters))
    case SURFACES => SurfacesPath(AdapterId(s), NextCursor(r.surfaces))
    case PROFILES => ProfilesPath(AdapterId(s), SurfaceId(s), NextCursor(r.profiles))
    case REVISIONS => RevisionsPath(ProfileId(s), NextCursor(r.revisions))
    case ASSIGNMENTS => AssignmentsPath(AdapterId(s), SurfaceId(s), NextCursor(r.assignments))
  }

  /** The fields that no read of the loop touches. */
  predicate SameGates(r: Readback, after: Readback) {
    && after.beta == r.beta && after.user == r.user && after.accounts == r.accounts
    && after.admission == r.admission && after.proof == r.proof && after.config == r.config
  }

  /** One more page of one part has been read, and nothing else has changed. */
  ghost predicate ReadsOne(s: Server, r: Readback, part: Part, answer: Result<Readback>) {
    && Reading(s, r) && LeftIn(LeftsOf(s, r), part) > 0
    && answer.Ok? && Reading(s, answer.value) && SameGates(r, answer.value)
    && Full(s, answer.value) == Full(s, r)
    && LeftsOf(s, answer.value) == OneLess(LeftsOf(s, r), part)
  }

  /** Each path is routed to its own field and brings exactly the next page. */
  lemma AdaptersRouted(s: Server, r: Readback)
    requires HonestServer(s) && Reading(s, r) && LeftIn(LeftsOf(s, r), ADAPTERS) > 0
    ensures ReadsOne(s, r, ADAPTERS, Capture(s, PathOf(s, r, ADAPTERS), r))
  {
    ReadStep(r.adapters, s.adapters);
  }

  lemma SurfacesRouted(s: Server, r: Readback)
    requires HonestServer(s) && Reading(s, r) && LeftIn(LeftsOf(s, r), SURFACES) > 0
    ensures ReadsOne(s, r, SURFACES, Capture(s, PathOf(s, r, SURFACES), r))
  {
    ReadStep(r.surfaces, SurfacePages(s));
  }

  lemma ProfilesRouted(s: Server, r: Readback)
    requires HonestServer(s) && Reading(s, r) && LeftIn(LeftsOf(s, r), PROFILES) > 0
    ensures ReadsOne(s, r, PROFILES, Capture(s, PathOf(s, r, PROFILES), r))
  {
    ReadStep(r.profiles, ProfilePages(s));
  }

  lemma RevisionsRouted(s: Server, r: Readback)
    requires HonestServer(s) && Reading(s, r) && LeftIn(LeftsOf(s, r), REVISIONS) > 0
    ensures ReadsOne(s, r, REVISIONS, Capture(s, PathOf(s, r, REVISIONS), r))
  {
    ReadStep(r.revisions, RevisionPages(s));
  }

  lemma AssignmentsRouted(s: Server, r: Readback)
    requires HonestServer(s) && Reading(s, r) && LeftIn(LeftsOf(s, r), ASSIGNMENTS) > 0
    ensures ReadsOne(s, r, ASSIGNMENTS, Capture(s, PathOf(s, r, ASSIGNMENTS), r))
  {
    ReadStep(r.assignments, AssignmentPages(s));
  }

  lemma ReadRouted(s: Server, r: Readback, part: Part)
    requires HonestServer(s) && Reading(s, r) && LeftIn(LeftsOf(s, r), part) > 0
    ensures ReadsOne(s, r, part, Capture(s, PathOf(s, r, part), r))
  {
    match part
    case RELEASES =>
    case POLICIES =>
    case ADAPTERS => AdaptersRouted(s, r);
    case SURFACES => SurfacesRouted(s, r);
    case PROFILES => ProfilesRouted(s, r);
    case REVISIONS => RevisionsRouted(s, r);
    case ASSIGNMENTS => AssignmentsRouted(s, r);
  }
}
