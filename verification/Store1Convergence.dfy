/** Planning, applying and reading again: how many mutations remain, and where it ends. */
module Store1Convergence {
  import opened Prelude
  import opened Selection
  import opened Store1Types
  import opened Store1Planner
  import opened Store1Catalog

  /** How many mutations are still to come, and whether they lead to READY or to a conflict. */
  datatype Outlook = Outlook(posts: nat, ready: bool)

  function AndThen(first: Outlook, second: Outlook): Outlook {
    if first.ready then Outlook(first.posts + second.posts, second.ready) else first
  }

  const CONFLICTING := Outlook(0, false)

  function ReleaseOutlook(c: Catalog): Outlook {
    if c.release.None? then Outlook(1, true)
    else if ReleaseExact(c.release.value) then Outlook(0, true)
    else CONFLICTING
  }

  function PolicyOutlook(c: Catalog): Outlook {
    if c.policies == [] || PolicyMatches(c.policies[0], PREDECESSOR) then Outlook(2, true)
    else if !PolicyMatches(c.policies[0], CURRENT) then CONFLICTING
    else if c.policies[0].id !in c.config.policyIds then Outlook(1, true)
    else Outlook(0, true)
  }

  /** The assignment, given the revisions of the profile and the target among them, if any. */
  function AssignmentOutlook(found: Found<Assignment>, revisions: seq<Revision>, target: Option<string>): (o: Outlook)
    ensures o.posts <= 2
  {
    match found
    case Many => CONFLICTING
    case Missing => Outlook(2, true)
    case One(a) =>
      if a.latest.None? then Outlook(1, true)
      else if target.Some? && Selects(a.latest.value, target.value) then Outlook(0, true)
      else
        var predecessor := ExactOne(revisions, IsPredecessor);
        if predecessor.One? && Selects(a.latest.value, predecessor.value.id) then Outlook(1, true) else CONFLICTING
  }

  function RevisionOutlook(revisions: seq<Revision>, assignment: Found<Assignment>): (o: Outlook)
    ensures o.posts <= 5
  {
    match ExactOne(revisions, IsTarget)
    case Many => CONFLICTING
    case Missing => AndThen(Outlook(3, true), AssignmentOutlook(assignment, revisions, None))
    case One(r) =>
      match r.state
      case RETIRED => CONFLICTING
      case DRAFT => AndThen(Outlook(2, true), AssignmentOutlook(assignment, revisions, Some(r.id)))
      case CANDIDATE => AndThen(Outlook(1, true), AssignmentOutlook(assignment, revisions, Some(r.id)))
      case PUBLISHED => AssignmentOutlook(assignment, revisions, Some(r.id))
  }

  function ProfileOutlook(c: Catalog, adapterId: string, surfaceId: string): (o: Outlook)
    ensures o.posts <= 6
  {
    var assignment := AssignmentOf(c, adapterId, surfaceId);
    match ProfileOf(c, adapterId, surfaceId)
    case Many => CONFLICTING
    case Missing => AndThen(Outlook(1, true), RevisionOutlook([], assignment))
    case One(p) => if p.status.ACTIVE? then RevisionOutlook(RevisionsOf(c, p.id), assignment) else CONFLICTING
  }

  function RegistryOutlook(c: Catalog): (o: Outlook)
    ensures o.posts <= 8
  {
    match AdapterOf(c)
    case Many => CONFLICTING
    case Missing => Outlook(8, true)
    case One(adapter) =>
      if !adapter.status.ACTIVE? then CONFLICTING
      else
        match SurfaceOf(c, adapter.id)
        case Many => CONFLICTING
        case Missing => Outlook(7, true)
        case One(surface) =>
          if surface.status.ACTIVE? then ProfileOutlook(c, adapter.id, surface.id) else CONFLICTING
  }

  function CompatibilityOutlook(c: Catalog): (o: Outlook)
    ensures o.posts <= 3
  {
    AndThen(ReleaseOutlook(c), PolicyOutlook(c))
  }

  /** Never more than eleven mutations. */
  function CatalogOutlook(c: Catalog): (o: Outlook)
    ensures o.posts <= 11
  {
    AndThen(CompatibilityOutlook(c), RegistryOutlook(c))
  }

  /** A plan is what an outlook announces: the end, or one more mutation. */
  ghost predicate Announces(outlook: Outlook, plan: Plan) {
    && (outlook.posts > 0 <==> plan.Post?)
    && (outlook.posts == 0 && outlook.ready <==> plan.Ready?)
    && (outlook.posts == 0 && !outlook.ready <==> plan.Conflict?)
  }

  function PlanFor(c: Catalog, accountId: string, now: int): Plan {
    PlanActivation(true, now, View(c, accountId, now))
  }

  lemma ViewSelects(c: Catalog, adapterId: string, surfaceId: string)
    ensures ExactOne(ProfilesOf(c, adapterId, surfaceId), ProfileScope(adapterId, surfaceId))
         == ProfileOf(c, adapterId, surfaceId)
    ensures ExactOne(AssignmentsOf(c, adapterId, surfaceId), AssignmentScope(adapterId, surfaceId))
         == AssignmentOf(c, adapterId, surfaceId)
  {
    MatchingTwice(c.profiles, ProfileListing(adapterId, surfaceId),
                  ProfileScope(adapterId, surfaceId), ProfileScope(adapterId, surfaceId));
    MatchingTwice(c.assignments, AssignmentListing(adapterId, surfaceId),
                  AssignmentScope(adapterId, surfaceId), AssignmentScope(adapterId, surfaceId));
  }

  /** Each part of the plan announces what its outlook says, or goes on when nothing is left to do. */
  lemma AssignmentAnnounced(r: Readback, c: Catalog, aid: string, sid: string, revisions: seq<Revision>, revision: Revision)
    requires r.assignments == Whole(AssignmentsOf(c, aid, sid))
    ensures Announces(AssignmentOutlook(AssignmentOf(c, aid, sid), revisions, Some(revision.id)),
                      AssignmentStage(r, aid, sid, revisions, revision))
  {
    ViewSelects(c, aid, sid);
  }

  lemma RevisionAnnounced(r: Readback, c: Catalog, aid: string, sid: string, pid: string)
    requires r.assignments == Whole(AssignmentsOf(c, aid, sid)) && r.revisions == Whole(RevisionsOf(c, pid))
    ensures var stage := RevisionStage(r, pid);
            Announces(RevisionOutlook(RevisionsOf(c, pid), AssignmentOf(c, aid, sid)),
                      if stage.Stop? then stage.plan
                      else AssignmentStage(r, aid, sid, stage.value.0, stage.value.1))
  {
    var stage := RevisionStage(r, pid);
    if stage.Go? {
      AssignmentAnnounced(r, c, aid, sid, stage.value.0, stage.value.1);
    }
  }

  lemma ProfileAnnounced(r: Readback, c: Catalog, aid: string, sid: string)
    requires r.assignments == Whole(AssignmentsOf(c, aid, sid)) && r.profiles == Whole(ProfilesOf(c, aid, sid))
    requires ProfileOf(c, aid, sid).One? ==> r.revisions == Whole(RevisionsOf(c, ProfileOf(c, aid, sid).value.id))
    ensures var profile := ProfileStage(r, aid, sid);
            Announces(ProfileOutlook(c, aid, sid),
                      if profile.Stop? then profile.plan
                      else
                        var revision := RevisionStage(r, profile.value.id);
                        if revision.Stop? then revision.plan
                        else AssignmentStage(r, aid, sid, revision.value.0, revision.value.1))
  {
    ViewSelects(c, aid, sid);
    var profile := ProfileStage(r, aid, sid);
    if profile.Go? {
      RevisionAnnounced(r, c, aid, sid, profile.value.id);
    }
  }

  lemma RegistryAnnounced(c: Catalog, accountId: string, now: int)
    ensures Announces(RegistryOutlook(c), RegistryPlan(View(c, accountId, now)))
  {
    var r := View(c, accountId, now);
    var adapter := AdapterStage(r);
    if adapter.Go? {
      var surface := SurfaceStage(r, adapter.value.id);
      if surface.Go? {
        ProfileAnnounced(r, c, adapter.value.id, surface.value.id);
      }
    }
  }

  /** A part announces what its outlook says, or goes on when nothing is left to do; it never ends in READY. */
  ghost predicate PartAnnounces<T>(outlook: Outlook, stage: Stage<T>) {
    match stage
    case Go(_) => outlook == Outlook(0, true)
    case Stop(plan) => outlook != Outlook(0, true) && Announces(outlook, plan) && !plan.Ready?
  }

  lemma ReleaseAnnounced(r: Readback, c: Catalog)
    requires r.release == Some(c.release)
    ensures PartAnnounces(ReleaseOutlook(c), ReleaseStage(r))
  {
  }

  lemma PolicyAnnounced(r: Readback, c: Catalog)
    requires r.policies == Some(c.policies)
    ensures PartAnnounces(PolicyOutlook(c), PolicyStage(r, c.config))
  {
  }

  lemma StagesAnnounced<S, T>(first: Outlook, second: Outlook, release: Stage<S>, policy: Stage<T>)
    requires PartAnnounces(first, release) && PartAnnounces(second, policy)
    ensures PartAnnounces(AndThen(first, second), InTurn(release, policy))
  {
  }

  /** The same for the release, the policy and the config. */
  lemma CompatibilityAnnounced(r: Readback, c: Catalog)
    requires r.release == Some(c.release) && r.policies == Some(c.policies)
    ensures PartAnnounces(CompatibilityOutlook(c), CompatibilityStage(r, c.config))
  {
    ReleaseAnnounced(r, c);
    PolicyAnnounced(r, c);
    StagesAnnounced(ReleaseOutlook(c), PolicyOutlook(c), ReleaseStage(r), PolicyStage(r, c.config));
  }

  lemma GatesPass(c: Catalog, accountId: string, now: int)
    requires BaseUsable(c.config)
    ensures Reviewer(View(c, accountId, now)) == Go(accountId)
    ensures SignedBase(now, View(c, accountId, now), accountId) == Go(c.config)
  {
  }

  lemma PlanSplits(c: Catalog, accountId: string, now: int)
    requires BaseUsable(c.config)
    ensures var r := View(c, accountId, now);
            var stage := CompatibilityStage(r, c.config);
            PlanFor(c, accountId, now) == if stage.Stop? then stage.plan else RegistryPlan(r)
  {
    GatesPass(c, accountId, now);
  }

  /** The plan for a complete read of any usable catalog is a mutation, READY or a conflict. */
  lemma PlanAnnounced(c: Catalog, accountId: string, now: int)
    requires BaseUsable(c.config)
    ensures Announces(CatalogOutlook(c), PlanFor(c, accountId, now))
  {
    PlanSplits(c, accountId, now);
    CompatibilityAnnounced(View(c, accountId, now), c);
    RegistryAnnounced(c, accountId, now);
    AnnouncesAndThen(CompatibilityOutlook(c), RegistryOutlook(c),
                     CompatibilityStage(View(c, accountId, now), c.config),
                     RegistryPlan(View(c, accountId, now)));
  }

  lemma AnnouncesAndThen<T>(first: Outlook, second: Outlook, stage: Stage<T>, rest: Plan)
    requires stage.Go? <==> first == Outlook(0, true)
    requires stage.Stop? ==> Announces(first, stage.plan) && !stage.plan.Ready?
    requires Announces(second, rest)
    ensures Announces(AndThen(first, second), if stage.Stop? then stage.plan else rest)
  {
  }
}
