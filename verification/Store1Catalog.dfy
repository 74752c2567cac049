/** The catalog behind the planner. */
module Store1Catalog {
  // What a complete read of an honest catalog returns, and what each mutation of the plan does to it.
  // The server itself is not part of this model; these are its assumptions.

  import opened Prelude
  import opened Selection
  import opened Store1Types
  import opened Store1Planner

  /** `policies` has the latest revision of the STORE-1 scope first. */
  datatype Catalog = Catalog(
    release: Option<Release>, policies: seq<Policy>, config: Config,
    adapters: seq<Entity>, surfaces: map<string, seq<Entity>>, profiles: seq<Profile>,
    revisions: map<string, seq<Revision>>, assignments: seq<Assignment>)

  function SurfacesOf(c: Catalog, adapterId: string): seq<Entity> {
    if adapterId in c.surfaces then c.surfaces[adapterId] else []
  }

  function RevisionsOf(c: Catalog, profileId: string): seq<Revision> {
    if profileId in c.revisions then c.revisions[profileId] else []
  }

  /** The filters of the profile and assignment listings. */
  function ProfileListing(adapterId: string, surfaceId: string): Profile -> bool {
    (p: Profile) => p.adapterId == adapterId && p.surfaceId == surfaceId
  }

  function AssignmentListing(adapterId: string, surfaceId: string): Assignment -> bool {
    (a: Assignment) => a.adapterId == adapterId && a.surfaceId == surfaceId && a.browser.OPERA? && a.subject.ACCOUNT?
  }

  function ProfilesOf(c: Catalog, adapterId: string, surfaceId: string): seq<Profile> {
    Matching(c.profiles, ProfileListing(adapterId, surfaceId))
  }

  function AssignmentsOf(c: Catalog, adapterId: string, surfaceId: string): seq<Assignment> {
    Matching(c.assignments, AssignmentListing(adapterId, surfaceId))
  }

  /** The entities that the plan works on. */
  function AdapterOf(c: Catalog): Found<Entity> {
    ExactOne(c.adapters, IsStore1)
  }

  function SurfaceOf(c: Catalog, adapterId: string): Found<Entity> {
    ExactOne(SurfacesOf(c, adapterId), IsStore1)
  }

  function ProfileOf(c: Catalog, adapterId: string, surfaceId: string): Found<Profile> {
    ExactOne(c.profiles, ProfileScope(adapterId, surfaceId))
  }

  function RevisionOf(c: Catalog, profileId: string): Found<Revision> {
    ExactOne(RevisionsOf(c, profileId), IsTarget)
  }

  function AssignmentOf(c: Catalog, adapterId: string, surfaceId: string): Found<Assignment> {
    ExactOne(c.assignments, AssignmentScope(adapterId, surfaceId))
  }

  /** A fresh proof of the current config, made for one admitted account. */
  function Attest(config: Config, accountId: string, now: int): Proof {
    Proof(true, true, ACCEPTED, config.signingKeyId, accountId,
          config.configVersion, config.contentHash, config.sourceFingerprint, Some(now), Some(now + 1))
  }

  /** A complete read of the catalog, with the reviewer prerequisites met and a fresh proof. */
  function View(c: Catalog, accountId: string, now: int): Readback {
    var adapter := AdapterOf(c);
    var adapterId := if adapter.One? then adapter.value.id else "";
    var surface := SurfaceOf(c, adapterId);
    var surfaceId := if surface.One? then surface.value.id else "";
    var profile := ProfileOf(c, adapterId, surfaceId);
    var profileId := if profile.One? then profile.value.id else "";
    Readback(
      Some(CLOSED), Some(Some(ReviewerUser(accountId, ACTIVE, true))),
      Whole([Account(accountId)]), Some(Some(Admission(accountId, true))),
      Some(Attest(c.config, accountId, now)),
      Some(Some(c.config)), Some(c.release), Some(c.policies),
      Whole(c.adapters), Whole(SurfacesOf(c, adapterId)), Whole(ProfilesOf(c, adapterId, surfaceId)),
      Whole(RevisionsOf(c, profileId)), Whole(AssignmentsOf(c, adapterId, surfaceId)))
  }

  /** The base config can carry STORE-1; without that the planner never plans a mutation. */
  predicate BaseUsable(config: Config) {
    config.contract.CONTROL_PLANE_V2? && config.bootstrapV2 && config.signingKeyState.KEY_ACTIVE?
  }

  /** Revision numbers are distinct within a profile and assignment identifiers are distinct. */
  predicate WellFormed(c: Catalog) {
    && BaseUsable(c.config)
    && (forall p | p in c.revisions :: DistinctRevisions(c.revisions[p]))
    && (forall i, j | 0 <= i < j < |c.assignments| :: c.assignments[i].id != c.assignments[j].id)
  }

  predicate DistinctRevisions(revisions: seq<Revision>) {
    forall i, j | 0 <= i < j < |revisions| :: revisions[i].revision != revisions[j].revision
  }

  /** An identifier that nothing in the catalog has or refers to. */
  predicate IsFresh(c: Catalog, id: string) {
    && id !in c.config.policyIds
    && id !in c.surfaces && id !in c.revisions
    && (forall p | p in c.profiles :: p.adapterId != id && p.surfaceId != id)
    && (forall a | a in c.assignments ::
          && a.id != id && a.adapterId != id && a.surfaceId != id
          && (a.latest.Some? ==> a.latest.value.baseline != id))
  }

  /** Every text that an identifier in the catalog could collide with. */
  ghost function UsedIds(c: Catalog): set<string> {
    (set id | id in c.config.policyIds) + c.surfaces.Keys + c.revisions.Keys
    + (set p | p in c.profiles :: p.adapterId) + (set p | p in c.profiles :: p.surfaceId)
    + (set a | a in c.assignments :: a.id) + (set a | a in c.assignments :: a.adapterId)
    + (set a | a in c.assignments :: a.surfaceId)
    + (set a | a in c.assignments && a.latest.Some? :: a.latest.value.baseline)
  }

  ghost function Longest(ids: set<string>): (n: nat)
    ensures forall id | id in ids :: |id| <= n
  {
    if ids == {} then 0
    else
      var id :| id in ids;
      var rest := Longest(ids - {id});
      assert ids == (ids - {id}) + {id};
      if |id| <= rest then rest else |id|
  }

  /** No catalog uses up all identifiers. */
  ghost function FreshId(c: Catalog): (id: string)
    ensures IsFresh(c, id)
  {
    var id := seq(Longest(UsedIds(c)) + 1, _ => 'f');
    assert id !in UsedIds(c);
    id
  }

  /** One more than every revision number in use. */
  function NextRevision(revisions: seq<Revision>): (n: nat)
    ensures forall r | r in revisions :: r.revision < n
  {
    if revisions == [] then 1
    else
      var rest := NextRevision(revisions[1..]);
      if revisions[0].revision < rest then rest else revisions[0].revision + 1
  }

  function IndexOfRevision(revisions: seq<Revision>, number: nat): (i: nat)
    ensures i <= |revisions|
    ensures i < |revisions| ==> revisions[i].revision == number
    ensures forall j | 0 <= j < i :: revisions[j].revision != number
  {
    if revisions == [] || revisions[0].revision == number then 0 else 1 + IndexOfRevision(revisions[1..], number)
  }

  function IndexOfAssignment(assignments: seq<Assignment>, id: string): (i: nat)
    ensures i <= |assignments|
    ensures i < |assignments| ==> assignments[i].id == id
    ensures forall j | 0 <= j < i :: assignments[j].id != id
  {
    if assignments == [] || assignments[0].id == id then 0 else 1 + IndexOfAssignment(assignments[1..], id)
  }

  function WithState(revisions: seq<Revision>, number: nat, state: RevisionState): seq<Revision> {
    var i := IndexOfRevision(revisions, number);
    if i < |revisions| then revisions[i := revisions[i].(state := state)] else revisions
  }

  function NewPolicy(id: string): Policy {
    Policy(id, STORE1_KEY, CONTROL_PLANE_V2, Some(OPERA), Some(CURRENT), Some(CURRENT), Some(MINIMUM_136),
           false, None, [])
  }

  /** An assignment after a DIRECT selection under compare-and-set on its latest revision number. */
  function Selected(a: Assignment, baseline: string, expected: Option<nat>): Assignment {
    var current := if a.latest.Some? then Some(a.latest.value.revision) else None;
    if current != expected then a
    else a.(latest := Some(Latest(if expected.Some? then expected.value + 1 else 1, DIRECT, baseline, None, 0)))
  }

  /** What the catalog makes of one mutation; new entities get the identifier `id`. */
  function Perform(c: Catalog, action: Action, id: string): Catalog {
    match action
    case PublishRelease(artifact) =>
      c.(release := Some(Release(CURRENT, STABLE, Some(artifact), [CONTROL_PLANE_V2], [OPERA])))
    case PublishPolicy => c.(policies := [NewPolicy(id)] + c.policies)
    case PublishConfig(expected, policyId) =>
      if expected != c.config.configVersion then c
      else
        c.(config := c.config.(configVersion := expected + 1, contentHash := id, sourceFingerprint := id,
                               policyIds := c.config.policyIds + [policyId]))
    case CreateAdapter => c.(adapters := c.adapters + [Entity(id, STORE1_KEY, ACTIVE)])
    case CreateSurface(adapterId) =>
      c.(surfaces := c.surfaces[adapterId := SurfacesOf(c, adapterId) + [Entity(id, STORE1_KEY, ACTIVE)]])
    case CreateProfile(adapterId, surfaceId) =>
      c.(profiles := c.profiles + [Profile(id, STORE1_KEY, ACTIVE, adapterId, surfaceId, None)])
    case CreateRevision(profileId) =>
      var revisions := RevisionsOf(c, profileId);
      c.(revisions := c.revisions[profileId :=
           revisions + [Revision(id, NextRevision(revisions), DRAFT, TARGET)]])
    case PromoteRevision(profileId, number) =>
      c.(revisions := c.revisions[profileId := WithState(RevisionsOf(c, profileId), number, CANDIDATE)])
    case PublishRevision(profileId, number) =>
      c.(revisions := c.revisions[profileId := WithState(RevisionsOf(c, profileId), number, PUBLISHED)])
    case CreateAssignment(adapterId, surfaceId) =>
      c.(assignments := c.assignments + [Assignment(id, adapterId, surfaceId, None, OPERA, ACCOUNT, None)])
    case SelectDirect(assignmentId, baseline, expected) =>
      var i := IndexOfAssignment(c.assignments, assignmentId);
      if i == |c.assignments| then c
      else c.(assignments := c.assignments[i := Selected(c.assignments[i], baseline, expected)])
  }
}
