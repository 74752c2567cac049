/** The texts of the paths and where their answers go. */
module PreflightPaths {
  import opened Prelude
  import opened PagedServer
  import opened PosixPath
  import opened PreflightReads
  import opened SlashText
  import opened Store1Types

  /** Where `capturePlannerRead` puts an answer. */
  datatype Routed = To(part: Part) | ToConfig | ToVariants | Unhandled

  const V1 := ["", "v1", "admin"]
  const COMPATIBILITY := V1 + ["compatibility"]
  const AI := V1 + ["ai"]
  const REGISTRY := AI + ["registry"]
  const LATEST := COMPATIBILITY + ["config-releases"]

  const POLICIES_START := "policies?"
  const LATEST_START := "latest?"
  const ADAPTERS_START := "adapters?"
  const SURFACES_START := "surfaces?"
  const VARIANTS_START := "variants?"
  const PROFILES_START := "profiles?"
  const REVISIONS_START := "revisions?"
  const ASSIGNMENTS_START := "assignments?"
  const PROFILES_WHOLE := "profiles"

  /** The segments of a path: `rest` is the query of the last one, `id` the identifier in the path. */
  function SegmentsOf(part: Part, version: string, id: string, rest: string): seq<string> {
    match part
    case RELEASES => COMPATIBILITY + ["releases", version]
    case POLICIES => COMPATIBILITY + [POLICIES_START + rest]
    case ADAPTERS => REGISTRY + [ADAPTERS_START + rest]
    case SURFACES => REGISTRY + ["adapters", id, SURFACES_START + rest]
    case PROFILES => AI + [PROFILES_START + rest]
    case REVISIONS => AI + [PROFILES_WHOLE, id, REVISIONS_START + rest]
    case ASSIGNMENTS => AI + [ASSIGNMENTS_START + rest]
  }

  /** The tests of `capturePlannerRead` in their order. */
  function Route(text: string, version: string): Routed {
    if text == Join(COMPATIBILITY + ["releases", version]) then To(RELEASES)
    else if Leading(COMPATIBILITY, POLICIES_START) <= text then To(POLICIES)
    else if Leading(LATEST, LATEST_START) <= text then ToConfig
    else if Leading(REGISTRY, ADAPTERS_START) <= text then To(ADAPTERS)
    else if Includes(text, "/" + SURFACES_START) then To(SURFACES)
    else if Includes(text, "/" + VARIANTS_START) then ToVariants
    else if Leading(AI, PROFILES_START) <= text then To(PROFILES)
    else if Includes(text, "/" + (PROFILES_WHOLE + "/")) && Includes(text, "/" + REVISIONS_START) then To(REVISIONS)
    else if Leading(AI, ASSIGNMENTS_START) <= text then To(ASSIGNMENTS)
    else Unhandled
  }

  /** The same on segments. */
  function SegmentRoute(parts: seq<string>, version: string): Routed {
    if parts == COMPATIBILITY + ["releases", version] then To(RELEASES)
    else if StartsLike(parts, COMPATIBILITY, POLICIES_START) then To(POLICIES)
    else if StartsLike(parts, LATEST, LATEST_START) then ToConfig
    else if StartsLike(parts, REGISTRY, ADAPTERS_START) then To(ADAPTERS)
    else if LaterStarts(parts, SURFACES_START) then To(SURFACES)
    else if LaterStarts(parts, VARIANTS_START) then ToVariants
    else if StartsLike(parts, AI, PROFILES_START) then To(PROFILES)
    else if LaterIs(parts, PROFILES_WHOLE) && LaterStarts(parts, REVISIONS_START) then To(REVISIONS)
    else if StartsLike(parts, AI, ASSIGNMENTS_START) then To(ASSIGNMENTS)
    else Unhandled
  }

  /** A text without slash, and one that is no query either. */
  predicate NoSlash(s: string) {
    '/' !in s
  }

  predicate PlainId(s: string) {
    '/' !in s && '?' !in s
  }

  lemma LiteralsHaveNoSlash()
    ensures Segments(COMPATIBILITY) && Segments(AI) && Segments(REGISTRY) && Segments(LATEST)
    ensures NoSlash(POLICIES_START) && NoSlash(LATEST_START) && NoSlash(ADAPTERS_START) && NoSlash(SURFACES_START)
    ensures NoSlash(VARIANTS_START) && NoSlash(PROFILES_START) && NoSlash(REVISIONS_START) && NoSlash(ASSIGNMENTS_START)
    ensures NoSlash(PROFILES_WHOLE) && NoSlash("releases") && NoSlash("adapters")
  {
  }

  lemma RouteBySegments(parts: seq<string>, version: string)
    requires Segments(parts) && NoSlash(version)
    ensures Route(Join(parts), version) == SegmentRoute(parts, version)
  {
    LiteralsHaveNoSlash();
    var release := COMPATIBILITY + ["releases", version];
    SplitInvertsJoin(parts);
    SplitInvertsJoin(release);
    StartsText(parts, COMPATIBILITY, POLICIES_START);
    StartsText(parts, LATEST, LATEST_START);
    StartsText(parts, REGISTRY, ADAPTERS_START);
    IncludesStart(parts, SURFACES_START);
    IncludesStart(parts, VARIANTS_START);
    StartsText(parts, AI, PROFILES_START);
    IncludesWhole(parts, PROFILES_WHOLE);
    IncludesStart(parts, REVISIONS_START);
    StartsText(parts, AI, ASSIGNMENTS_START);
  }

  /** A query name with its question mark does not start a plain identifier. */
  lemma NoQueryInId(name: string, id: string)
    requires PlainId(id) && '?' in name
    ensures !(name <= id)
  {
    if name <= id {
      StartHas(name, id, '?');
    }
  }

  lemma StartHas(start: string, s: string, c: char)
    requires start <= s && c in start
    ensures c in s
  {
    var i :| 0 <= i < |start| && start[i] == c;
    assert s[i] == c;
  }

  lemma NamesAreQueries(id: string)
    requires PlainId(id)
    ensures !(SURFACES_START <= id) && !(VARIANTS_START <= id) && !(ADAPTERS_START <= id) && !(PROFILES_START <= id)
    ensures !(REVISIONS_START <= id) && !(ASSIGNMENTS_START <= id) && !(POLICIES_START <= id) && !(LATEST_START <= id)
  {
    assert SURFACES_START[8] == '?' && VARIANTS_START[8] == '?' && ADAPTERS_START[8] == '?' && PROFILES_START[8] == '?';
    assert REVISIONS_START[9] == '?' && ASSIGNMENTS_START[11] == '?' && POLICIES_START[8] == '?' && LATEST_START[6] == '?';
    NoQueryInId(SURFACES_START, id);
    NoQueryInId(VARIANTS_START, id);
    NoQueryInId(ADAPTERS_START, id);
    NoQueryInId(PROFILES_START, id);
    NoQueryInId(REVISIONS_START, id);
    NoQueryInId(ASSIGNMENTS_START, id);
    NoQueryInId(POLICIES_START, id);
    NoQueryInId(LATEST_START, id);
  }

  /** Texts with different first characters do not start with each other. */
  lemma OtherLetter(name: string, other: string, rest: string)
    requires name != "" && other != "" && name[0] != other[0]
    ensures !(name <= other + rest)
  {
    assert (other + rest)[0] == other[0];
  }

  /** Whether the tests for surfaces and variants fail on all segments. */
  lemma NoneStarts(parts: seq<string>, name: string)
    requires forall i | 1 <= i < |parts| :: !(name <= parts[i])
    ensures !LaterStarts(parts, name)
  {
    LaterStartsAt(parts, name);
  }

  lemma PoliciesRouted(version: string, rest: string)
    ensures SegmentRoute(SegmentsOf(POLICIES, version, "", rest), version) == To(POLICIES)
  {
    var parts := SegmentsOf(POLICIES, version, "", rest);
    StartsLikeAt(parts, COMPATIBILITY, POLICIES_START);
    assert |parts| == 5;
  }

  lemma AdaptersTextRouted(version: string, rest: string)
    ensures SegmentRoute(SegmentsOf(ADAPTERS, version, "", rest), version) == To(ADAPTERS)
  {
    var parts := SegmentsOf(ADAPTERS, version, "", rest);
    assert parts == ["", "v1", "admin", "ai", "registry", ADAPTERS_START + rest];
    StartsLikeAt(parts, COMPATIBILITY, POLICIES_START);
    StartsLikeAt(parts, LATEST, LATEST_START);
    StartsLikeAt(parts, REGISTRY, ADAPTERS_START);
    assert parts[3] != COMPATIBILITY[3];
  }

  lemma SurfacesTextRouted(version: string, id: string, rest: string)
    requires PlainId(id)
    ensures SegmentRoute(SegmentsOf(SURFACES, version, id, rest), version) == To(SURFACES)
  {
    var parts := SegmentsOf(SURFACES, version, id, rest);
    assert parts == ["", "v1", "admin", "ai", "registry", "adapters", id, SURFACES_START + rest];
    StartsLikeAt(parts, COMPATIBILITY, POLICIES_START);
    StartsLikeAt(parts, LATEST, LATEST_START);
    StartsLikeAt(parts, REGISTRY, ADAPTERS_START);
    assert parts[3] != COMPATIBILITY[3];
    assert |ADAPTERS_START| == 9 && |parts[5]| == 8;
    assert SURFACES_START <= parts[7];
    LaterStartsAt(parts, SURFACES_START);
  }

  lemma ProfilesTextRouted(version: string, rest: string)
    ensures SegmentRoute(SegmentsOf(PROFILES, version, "", rest), version) == To(PROFILES)
  {
    var parts := SegmentsOf(PROFILES, version, "", rest);
    assert parts == ["", "v1", "admin", "ai", PROFILES_START + rest];
    StartsLikeAt(parts, COMPATIBILITY, POLICIES_START);
    StartsLikeAt(parts, LATEST, LATEST_START);
    StartsLikeAt(parts, REGISTRY, ADAPTERS_START);
    assert parts[3] != COMPATIBILITY[3];
    OtherLetter(SURFACES_START, PROFILES_START, rest);
    OtherLetter(VARIANTS_START, PROFILES_START, rest);
    NoneStarts(parts, SURFACES_START);
    NoneStarts(parts, VARIANTS_START);
    StartsLikeAt(parts, AI, PROFILES_START);
  }

  lemma RevisionsTextRouted(version: string, id: string, rest: string)
    requires PlainId(id)
    ensures SegmentRoute(SegmentsOf(REVISIONS, version, id, rest), version) == To(REVISIONS)
  {
    var parts := SegmentsOf(REVISIONS, version, id, rest);
    assert parts == ["", "v1", "admin", "ai", "profiles", id, REVISIONS_START + rest];
    StartsLikeAt(parts, COMPATIBILITY, POLICIES_START);
    StartsLikeAt(parts, LATEST, LATEST_START);
    StartsLikeAt(parts, REGISTRY, ADAPTERS_START);
    assert parts[3] != COMPATIBILITY[3] && parts[4] != REGISTRY[4];
    NamesAreQueries(id);
    OtherLetter(SURFACES_START, REVISIONS_START, rest);
    OtherLetter(VARIANTS_START, REVISIONS_START, rest);
    NoneStarts(parts, SURFACES_START);
    NoneStarts(parts, VARIANTS_START);
    StartsLikeAt(parts, AI, PROFILES_START);
    assert |PROFILES_START| == 9 && |parts[4]| == 8;
    LaterIsAt(parts, PROFILES_WHOLE);
    assert REVISIONS_START <= parts[6];
    LaterStartsAt(parts, REVISIONS_START);
  }

  lemma AssignmentsTextRouted(version: string, rest: string)
    ensures SegmentRoute(SegmentsOf(ASSIGNMENTS, version, "", rest), version) == To(ASSIGNMENTS)
  {
    var parts := SegmentsOf(ASSIGNMENTS, version, "", rest);
    assert parts == ["", "v1", "admin", "ai", ASSIGNMENTS_START + rest];
    StartsLikeAt(parts, COMPATIBILITY, POLICIES_START);
    StartsLikeAt(parts, LATEST, LATEST_START);
    StartsLikeAt(parts, REGISTRY, ADAPTERS_START);
    assert parts[3] != COMPATIBILITY[3];
    OtherLetter(SURFACES_START, ASSIGNMENTS_START, rest);
    OtherLetter(VARIANTS_START, ASSIGNMENTS_START, rest);
    OtherLetter(REVISIONS_START, ASSIGNMENTS_START, rest);
    OtherLetter(PROFILES_START, ASSIGNMENTS_START, rest);
    NoneStarts(parts, SURFACES_START);
    NoneStarts(parts, VARIANTS_START);
    NoneStarts(parts, REVISIONS_START);
    StartsLikeAt(parts, AI, PROFILES_START);
    StartsLikeAt(parts, AI, ASSIGNMENTS_START);
  }

  lemma PathSegments(part: Part, version: string, id: string, rest: string)
    requires NoSlash(version) && PlainId(id) && NoSlash(rest)
    ensures Segments(SegmentsOf(part, version, id, rest))
  {
    LiteralsHaveNoSlash();
  }

  /**
   * The answer to every path that the planner asks for goes to the field of its own part, as long as
   * the identifiers in the paths have no slash and no question mark and the queries no slash.
   */
  lemma TextsAreRouted(part: Part, version: string, id: string, rest: string)
    requires NoSlash(version) && PlainId(id) && NoSlash(rest)
    ensures Route(Join(SegmentsOf(part, version, id, rest)), version) == To(part)
  {
    PathSegments(part, version, id, rest);
    RouteBySegments(SegmentsOf(part, version, id, rest), version);
    match part
    case RELEASES =>
    case POLICIES => PoliciesRouted(version, rest);
    case ADAPTERS => AdaptersTextRouted(version, rest);
    case SURFACES => SurfacesTextRouted(version, id, rest);
    case PROFILES => ProfilesTextRouted(version, rest);
    case REVISIONS => RevisionsTextRouted(version, id, rest);
    case ASSIGNMENTS => AssignmentsTextRouted(version, rest);
  }

  const VERSION := "0.2.11"

  /** The collection that a path asks for, for the paths behind the gates. */
  function PartAsked(path: ReadPath): Option<Part> {
    match path
    case ReleasePath => Some(RELEASES)
    case PoliciesPath => Some(POLICIES)
    case AdaptersPath(_) => Some(ADAPTERS)
    case SurfacesPath(_, _) => Some(SURFACES)
    case ProfilesPath(_, _, _) => Some(PROFILES)
    case RevisionsPath(_, _) => Some(REVISIONS)
    case AssignmentsPath(_, _, _) => Some(ASSIGNMENTS)
    case _ => None
  }

  /** The identifier between the slashes. */
  function IdInPath(path: ReadPath): string {
    match path
    case SurfacesPath(adapterId, _) => adapterId
    case RevisionsPath(profileId, _) => profileId
    case _ => ""
  }

  function CursorQuery(cursor: Option<string>, encode: string -> string): string {
    if cursor.Some? then "limit=100&cursor=" + encode(cursor.value) else "limit=100"
  }

  function ScopeQuery(adapterId: string, surfaceId: string): string {
    "adapterId=" + adapterId + "&surfaceId=" + surfaceId + "&"
  }

  const BROWSER_QUERY := "browserFamily=opera&subjectKind=ACCOUNT&"

  function PolicyQuery(): string {
    "contractVersion=" + "control_plane_v2" + "&policyKey=" + "store1.opera.v2" + "&scope=opera&limit=1"
  }

  /** What follows the question mark; `encode` is `encodeURIComponent`. */
  function QueryOf(path: ReadPath, encode: string -> string): string {
    match path
    case PoliciesPath => PolicyQuery()
    case AdaptersPath(cursor) => CursorQuery(cursor, encode)
    case SurfacesPath(_, cursor) => CursorQuery(cursor, encode)
    case ProfilesPath(a, f, cursor) => ScopeQuery(a, f) + CursorQuery(cursor, encode)
    case RevisionsPath(_, cursor) => CursorQuery(cursor, encode)
    case AssignmentsPath(a, f, cursor) => ScopeQuery(a, f) + BROWSER_QUERY + CursorQuery(cursor, encode)
    case _ => ""
  }

  /** A page of 100, from the cursor on if there is one. */
  lemma FurtherPage(cursor: Option<string>, encode: string -> string)
    ensures CursorQuery(cursor, encode) == "limit=100" + if cursor.None? then "" else "&cursor=" + encode(cursor.value)
  {
    assert "limit=100&cursor=" == "limit=100" + "&cursor=";
  }

  /** Profiles and assignments are asked for below their adapter and surface, and every page from its own cursor. */
  lemma ProfilesAsked(adapterId: string, surfaceId: string, cursor: Option<string>, encode: string -> string)
    ensures QueryOf(ProfilesPath(adapterId, surfaceId, cursor), encode)
         == "adapterId=" + (adapterId + ("&surfaceId=" + (surfaceId + ("&" + CursorQuery(cursor, encode)))))
  {
    Regrouped("adapterId=", adapterId, "&surfaceId=", surfaceId, "&", CursorQuery(cursor, encode));
  }

  lemma AssignmentsAsked(adapterId: string, surfaceId: string, cursor: Option<string>, encode: string -> string)
    ensures QueryOf(AssignmentsPath(adapterId, surfaceId, cursor), encode)
         == "adapterId=" + (adapterId + ("&surfaceId=" + (surfaceId
            + ("&" + (BROWSER_QUERY + CursorQuery(cursor, encode))))))
  {
    var rest := CursorQuery(cursor, encode);
    TwoGrouped(ScopeQuery(adapterId, surfaceId), BROWSER_QUERY, rest);
    Regrouped("adapterId=", adapterId, "&surfaceId=", surfaceId, "&", BROWSER_QUERY + rest);
  }

  lemma OthersAsked(path: ReadPath, encode: string -> string)
    ensures path.AdaptersPath? || path.SurfacesPath? || path.RevisionsPath? ==>
              QueryOf(path, encode) == CursorQuery(path.cursor, encode)
    ensures path.SurfacesPath? ==> IdInPath(path) == path.adapterId
    ensures path.RevisionsPath? ==> IdInPath(path) == path.profileId
  {
  }

  lemma TwoGrouped(a: string, b: string, rest: string)
    ensures a + (b + rest) == (a + b) + rest
  {
  }

  lemma Regrouped(a: string, b: string, c: string, d: string, e: string, rest: string)
    ensures a + b + c + d + e + rest == a + (b + (c + (d + (e + rest))))
  {
  }

  /** The text that the planner builds for a path. */
  function TextOf(path: ReadPath, encode: string -> string): string
    requires PartAsked(path).Some?
  {
    Join(SegmentsOf(PartAsked(path).value, VERSION, IdInPath(path), QueryOf(path, encode)))
  }

  lemma CursorQueryHasNoSlash(cursor: Option<string>, encode: string -> string)
    requires forall t :: NoSlash(encode(t))
    ensures NoSlash(CursorQuery(cursor, encode))
  {
  }

  lemma ScopeQueryHasNoSlash(a: string, f: string)
    requires NoSlash(a) && NoSlash(f)
    ensures NoSlash(ScopeQuery(a, f))
  {
  }

  /** The identifiers in a path are plain. */
  predicate PlainIds(path: ReadPath) {
    match path
    case SurfacesPath(a, _) => PlainId(a)
    case ProfilesPath(a, f, _) => PlainId(a) && PlainId(f)
    case RevisionsPath(p, _) => PlainId(p)
    case AssignmentsPath(a, f, _) => PlainId(a) && PlainId(f)
    case _ => true
  }

  lemma Joined(a: string, b: string)
    requires NoSlash(a) && NoSlash(b)
    ensures NoSlash(a + b)
  {
  }

  lemma PolicyQueryHasNoSlash()
    ensures NoSlash(PolicyQuery())
  {
    Joined("contractVersion=", "control_plane_v2");
    Joined("contractVersion=" + "control_plane_v2", "&policyKey=");
    Joined("contractVersion=" + "control_plane_v2" + "&policyKey=", "store1.opera.v2");
    Joined("contractVersion=" + "control_plane_v2" + "&policyKey=" + "store1.opera.v2", "&scope=opera&limit=1");
  }

  lemma BrowserQueryHasNoSlash()
    ensures NoSlash(BROWSER_QUERY)
  {
  }

  lemma QueryHasNoSlash(path: ReadPath, encode: string -> string)
    requires PlainIds(path) && forall t :: NoSlash(encode(t))
    ensures NoSlash(QueryOf(path, encode))
  {
    match path
    case PoliciesPath =>
      PolicyQueryHasNoSlash();
    case AdaptersPath(cursor) => CursorQueryHasNoSlash(cursor, encode);
    case SurfacesPath(_, cursor) => CursorQueryHasNoSlash(cursor, encode);
    case RevisionsPath(_, cursor) => CursorQueryHasNoSlash(cursor, encode);
    case ProfilesPath(a, f, cursor) =>
      CursorQueryHasNoSlash(cursor, encode);
      ScopeQueryHasNoSlash(a, f);
      Joined(ScopeQuery(a, f), CursorQuery(cursor, encode));
    case AssignmentsPath(a, f, cursor) =>
      CursorQueryHasNoSlash(cursor, encode);
      ScopeQueryHasNoSlash(a, f);
      BrowserQueryHasNoSlash();
      Joined(ScopeQuery(a, f), BROWSER_QUERY);
      Joined(ScopeQuery(a, f) + BROWSER_QUERY, CursorQuery(cursor, encode));
    case _ =>
  }

  /**
   * The answer to the text that the planner builds for a path goes to the field of the part that it
   * asked for, whatever the cursors are.
   */
  lemma PathsAreRouted(path: ReadPath, encode: string -> string)
    requires PartAsked(path).Some? && PlainIds(path) && forall t :: NoSlash(encode(t))
    ensures Route(TextOf(path, encode), VERSION) == To(PartAsked(path).value)
  {
    QueryHasNoSlash(path, encode);
    TextsAreRouted(PartAsked(path).value, VERSION, IdInPath(path), QueryOf(path, encode));
  }

  /** So it is for every page that is planned next, with the identifiers that the server has given. */
  lemma PlannedReadsAreRouted(s: Server, r: Readback, part: Part, encode: string -> string)
    requires Reading(s, r) && PlainIds(PathOf(s, r, part)) && forall t :: NoSlash(encode(t))
    ensures PartAsked(PathOf(s, r, part)) == Some(part)
    ensures Route(TextOf(PathOf(s, r, part), encode), VERSION) == To(part)
  {
    AskedPart(s, r, part);
    PathsAreRouted(PathOf(s, r, part), encode);
  }

  lemma AskedPart(s: Server, r: Readback, part: Part)
    requires Reading(s, r)
    ensures PartAsked(PathOf(s, r, part)) == Some(part)
  {
  }
}
