/** Each planned mutation brings an honest catalog exactly one step nearer to the end. */
module Store1Steps {
  import opened Prelude
  import opened Selection
  import opened Store1Types
  import opened Store1Planner
  import opened Store1Catalog
  import opened Store1Convergence

  /** One mutation was made and the end stays the same. */
  ghost predicate StepsTo(before: Outlook, after: Outlook) {
    before.posts == after.posts + 1 && before.ready == after.ready
  }

  lemma ExactOneAppend<T>(values: seq<T>, v: T, matches: T -> bool)
    requires ExactOne(values, matches).Missing? && matches(v)
    ensures ExactOne(values + [v], matches) == One(v)
  {
    MatchingAppend(values, [v], matches);
    assert Matching([v], matches) == [v];
  }

  lemma ExactOneIgnores<T>(values: seq<T>, v: T, matches: T -> bool)
    requires !matches(v)
    ensures ExactOne(values + [v], matches) == ExactOne(values, matches)
  {
    MatchingAppend(values, [v], matches);
    assert Matching([v], matches) == [];
  }

  lemma ExactOneUpdate<T>(values: seq<T>, i: nat, v: T, matches: T -> bool)
    requires i < |values| && matches(values[i]) && matches(v) && ExactOne(values, matches).One?
    ensures ExactOne(values[i := v], matches) == One(v)
  {
    MatchingUpdate(values, i, v, matches);
  }

  lemma ExactOneIsElement<T>(values: seq<T>, matches: T -> bool)
    requires ExactOne(values, matches).One?
    ensures ExactOne(values, matches).value in values && matches(ExactOne(values, matches).value)
  {
    MatchingSound(values, matches);
    assert ExactOne(values, matches).value in Matching(values, matches);
  }

  /** Changing the state of one revision by its number. */
  lemma WithStateChanges(revisions: seq<Revision>, r: Revision, state: RevisionState)
    requires DistinctRevisions(revisions) && ExactOne(revisions, IsTarget) == One(r)
    ensures var after := WithState(revisions, r.revision, state);
            && ExactOne(after, IsTarget) == One(r.(state := state))
            && ExactOne(after, IsPredecessor) == ExactOne(revisions, IsPredecessor)
            && DistinctRevisions(after)
  {
    ExactOneIsElement(revisions, IsTarget);
    var i := IndexOfRevision(revisions, r.revision);
    assert revisions[i] == r;
    ExactOneUpdate(revisions, i, r.(state := state), IsTarget);
    MatchingUpdate(revisions, i, r.(state := state), IsPredecessor);
  }

  lemma RevisionCreated(revisions: seq<Revision>, id: string, assignment: Found<Assignment>)
    requires ExactOne(revisions, IsTarget).Missing?
    requires assignment.One? && assignment.value.latest.Some? ==> assignment.value.latest.value.baseline != id
    ensures var after := revisions + [Revision(id, NextRevision(revisions), DRAFT, TARGET)];
            StepsTo(RevisionOutlook(revisions, assignment), RevisionOutlook(after, assignment))
  {
    var r := Revision(id, NextRevision(revisions), DRAFT, TARGET);
    ExactOneAppend(revisions, r, IsTarget);
    ExactOneIgnores(revisions, r, IsPredecessor);
  }

  lemma RevisionCreatedDistinct(revisions: seq<Revision>, id: string)
    requires DistinctRevisions(revisions)
    ensures DistinctRevisions(revisions + [Revision(id, NextRevision(revisions), DRAFT, TARGET)])
  {
  }

  lemma RevisionAdvanced(revisions: seq<Revision>, r: Revision, assignment: Found<Assignment>)
    requires DistinctRevisions(revisions) && ExactOne(revisions, IsTarget) == One(r)
    requires r.state.DRAFT? || r.state.CANDIDATE?
    ensures var after := WithState(revisions, r.revision, if r.state.DRAFT? then CANDIDATE else PUBLISHED);
            StepsTo(RevisionOutlook(revisions, assignment), RevisionOutlook(after, assignment))
  {
    WithStateChanges(revisions, r, if r.state.DRAFT? then CANDIDATE else PUBLISHED);
  }

  /** The mutation planned from the target revision on. */
  ghost predicate PlansFromRevision(c: Catalog, aid: string, sid: string, pid: string, action: Action) {
    var revisions := RevisionsOf(c, pid);
    match ExactOne(revisions, IsTarget)
    case Many => false
    case Missing => action == CreateRevision(pid)
    case One(r) =>
      match r.state
      case RETIRED => false
      case DRAFT => action == PromoteRevision(pid, r.revision)
      case CANDIDATE => action == PublishRevision(pid, r.revision)
      case PUBLISHED =>
        match AssignmentOf(c, aid, sid)
        case Many => false
        case Missing => action == CreateAssignment(aid, sid)
        case One(a) =>
          && action == SelectDirect(a.id, r.id, if a.latest.Some? then Some(a.latest.value.revision) else None)
          && AssignmentOutlook(One(a), revisions, Some(r.id)) == Outlook(1, true)
  }

  lemma RevisionStep(c: Catalog, aid: string, sid: string, pid: string, action: Action, id: string)
    requires WellFormed(c) && IsFresh(c, id)
    requires PlansFromRevision(c, aid, sid, pid, action)
    requires action.CreateRevision? || action.PromoteRevision? || action.PublishRevision?
    ensures var after := Perform(c, action, id);
            && WellFormed(after) && AssignmentOf(after, aid, sid) == AssignmentOf(c, aid, sid)
            && StepsTo(RevisionOutlook(RevisionsOf(c, pid), AssignmentOf(c, aid, sid)),
                       RevisionOutlook(RevisionsOf(after, pid), AssignmentOf(after, aid, sid)))
  {
    var revisions, assignment := RevisionsOf(c, pid), AssignmentOf(c, aid, sid);
    if assignment.One? {
      ExactOneIsElement(c.assignments, AssignmentScope(aid, sid));
    }
    match ExactOne(revisions, IsTarget)
    case Missing =>
      RevisionCreated(revisions, id, assignment);
      RevisionCreatedDistinct(revisions, id);
    case One(r) =>
      RevisionAdvanced(revisions, r, assignment);
      WithStateChanges(revisions, r, if r.state.DRAFT? then CANDIDATE else PUBLISHED);
  }

  lemma AssignmentCreated(c: Catalog, aid: string, sid: string, id: string)
    requires WellFormed(c) && IsFresh(c, id) && AssignmentOf(c, aid, sid).Missing?
    ensures var after := Perform(c, CreateAssignment(aid, sid), id);
            && WellFormed(after)
            && AssignmentOf(after, aid, sid) == One(Assignment(id, aid, sid, None, OPERA, ACCOUNT, None))
  {
    ExactOneAppend(c.assignments, Assignment(id, aid, sid, None, OPERA, ACCOUNT, None), AssignmentScope(aid, sid));
  }

  lemma AssignmentSelected(c: Catalog, aid: string, sid: string, a: Assignment, baseline: string, expected: Option<nat>, id: string)
    requires WellFormed(c) && AssignmentOf(c, aid, sid) == One(a)
    ensures var after := Perform(c, SelectDirect(a.id, baseline, expected), id);
            WellFormed(after) && AssignmentOf(after, aid, sid) == One(Selected(a, baseline, expected))
  {
    ExactOneIsElement(c.assignments, AssignmentScope(aid, sid));
    var i := IndexOfAssignment(c.assignments, a.id);
    assert c.assignments[i] == a;
    ExactOneUpdate(c.assignments, i, Selected(a, baseline, expected), AssignmentScope(aid, sid));
  }

  lemma AssignmentStep(c: Catalog, aid: string, sid: string, pid: string, action: Action, id: string)
    requires WellFormed(c) && IsFresh(c, id)
    requires PlansFromRevision(c, aid, sid, pid, action)
    requires action.CreateAssignment? || action.SelectDirect?
    ensures var after := Perform(c, action, id);
            && WellFormed(after)
            && StepsTo(RevisionOutlook(RevisionsOf(c, pid), AssignmentOf(c, aid, sid)),
                       RevisionOutlook(RevisionsOf(after, pid), AssignmentOf(after, aid, sid)))
  {
    match AssignmentOf(c, aid, sid)
    case Missing =>
      AssignmentCreated(c, aid, sid, id);
      CreatedSteps(RevisionsOf(c, pid), Assignment(id, aid, sid, None, OPERA, ACCOUNT, None));
    case One(a) =>
      AssignmentSelected(c, aid, sid, a, action.baseline, action.expectedLatest, id);
      SelectedSteps(RevisionsOf(c, pid), a, action.baseline);
  }

  lemma CreatedSteps(revisions: seq<Revision>, a: Assignment)
    requires ExactOne(revisions, IsTarget).One? && ExactOne(revisions, IsTarget).value.state.PUBLISHED? && a.latest.None?
    ensures StepsTo(RevisionOutlook(revisions, Missing), RevisionOutlook(revisions, One(a)))
  {
  }

  lemma SelectedSteps(revisions: seq<Revision>, a: Assignment, target: string)
    requires ExactOne(revisions, IsTarget).One?
    requires var r := ExactOne(revisions, IsTarget).value; r.state.PUBLISHED? && r.id == target
    requires AssignmentOutlook(One(a), revisions, Some(target)) == Outlook(1, true)
    ensures var now := Selected(a, target, if a.latest.Some? then Some(a.latest.value.revision) else None);
            StepsTo(RevisionOutlook(revisions, One(a)), RevisionOutlook(revisions, One(now)))
  {
  }

  /** The plan from the revision on, for a complete read. */
  lemma RevisionPlanned(r: Readback, c: Catalog, aid: string, sid: string, pid: string, action: Action)
    requires r.assignments == Whole(AssignmentsOf(c, aid, sid)) && r.revisions == Whole(RevisionsOf(c, pid))
    requires PlanBelowProfile(r, aid, sid, pid) == Post(action)
    ensures PlansFromRevision(c, aid, sid, pid, action)
  {
    ViewSelects(c, aid, sid);
  }

  /** A mutation from the revision on, seen from the profile. */
  lemma ProfileKept(c: Catalog, aid: string, sid: string, p: Profile, action: Action, id: string)
    requires WellFormed(c) && IsFresh(c, id)
    requires ProfileOf(c, aid, sid) == One(p) && p.status.ACTIVE?
    requires PlansFromRevision(c, aid, sid, p.id, action)
    ensures var after := Perform(c, action, id);
            && WellFormed(after)
            && StepsTo(ProfileOutlook(c, aid, sid), ProfileOutlook(after, aid, sid))
  {
    if action.CreateAssignment? || action.SelectDirect? {
      AssignmentStep(c, aid, sid, p.id, action, id);
    } else {
      RevisionStep(c, aid, sid, p.id, action, id);
    }
    assert Perform(c, action, id).profiles == c.profiles;
  }

  lemma ProfileCreated(c: Catalog, aid: string, sid: string, id: string)
    requires WellFormed(c) && IsFresh(c, id) && ProfileOf(c, aid, sid).Missing?
    ensures var after := Perform(c, CreateProfile(aid, sid), id);
            WellFormed(after) && StepsTo(ProfileOutlook(c, aid, sid), ProfileOutlook(after, aid, sid))
  {
    ExactOneAppend(c.profiles, Profile(id, STORE1_KEY, ACTIVE, aid, sid, None), ProfileScope(aid, sid));
  }

  lemma SurfaceCreated(c: Catalog, aid: string, id: string)
    requires WellFormed(c) && IsFresh(c, id) && SurfaceOf(c, aid).Missing?
    ensures var after := Perform(c, CreateSurface(aid), id);
            && WellFormed(after) && SurfaceOf(after, aid) == One(Entity(id, STORE1_KEY, ACTIVE))
            && ProfileOutlook(after, aid, id) == Outlook(6, true)
  {
    ExactOneAppend(SurfacesOf(c, aid), Entity(id, STORE1_KEY, ACTIVE), IsStore1);
    MatchingNone(c.profiles, ProfileScope(aid, id));
    MatchingNone(c.assignments, AssignmentScope(aid, id));
  }

  lemma AdapterCreated(c: Catalog, id: string)
    requires WellFormed(c) && IsFresh(c, id) && AdapterOf(c).Missing?
    ensures var after := Perform(c, CreateAdapter, id);
            && WellFormed(after) && AdapterOf(after) == One(Entity(id, STORE1_KEY, ACTIVE))
            && SurfaceOf(after, id).Missing?
  {
    ExactOneAppend(c.adapters, Entity(id, STORE1_KEY, ACTIVE), IsStore1);
  }

  predicate IsRegistryAction(action: Action) {
    !action.PublishRelease? && !action.PublishPolicy? && !action.PublishConfig?
  }

  /** What the plan from a surface on asks for. */
  lemma PlannedBelowSurface(c: Catalog, r: Readback, adapter: Entity, surface: Entity, action: Action)
    requires AdapterOf(c) == One(adapter) && SurfaceOf(c, adapter.id) == One(surface)
    requires ReadsBelow(r, c, adapter) && RegistryPlan(r) == Post(action)
    ensures var found := ProfileOf(c, adapter.id, surface.id);
            && !found.Many?
            && (found.Missing? ==> action == CreateProfile(adapter.id, surface.id))
            && (found.One? ==>
                  && found.value.status.ACTIVE?
                  && PlanBelowProfile(r, adapter.id, surface.id, found.value.id) == Post(action))
  {
    ViewSelects(c, adapter.id, surface.id);
  }

  /** A mutation below an existing surface. */
  lemma SurfaceKept(c: Catalog, r: Readback, adapter: Entity, surface: Entity, action: Action, id: string)
    requires WellFormed(c) && IsFresh(c, id)
    requires AdapterOf(c) == One(adapter) && SurfaceOf(c, adapter.id) == One(surface)
    requires ReadsBelow(r, c, adapter)
    requires RegistryPlan(r) == Post(action)
    ensures IsRegistryAction(action) && !action.CreateAdapter? && !action.CreateSurface?
    ensures WellFormed(Perform(c, action, id))
    ensures StepsTo(ProfileOutlook(c, adapter.id, surface.id),
                    ProfileOutlook(Perform(c, action, id), adapter.id, surface.id))
  {
    PlannedBelowSurface(c, r, adapter, surface, action);
    match ProfileOf(c, adapter.id, surface.id)
    case Missing => ProfileCreated(c, adapter.id, surface.id, id);
    case One(p) =>
      RevisionPlanned(r, c, adapter.id, surface.id, p.id, action);
      ProfileKept(c, adapter.id, surface.id, p, action, id);
  }

  lemma RegistryStep(c: Catalog, accountId: string, now: int, action: Action, id: string)
    requires WellFormed(c) && IsFresh(c, id)
    requires RegistryPlan(View(c, accountId, now)) == Post(action)
    ensures IsRegistryAction(action)
    ensures WellFormed(Perform(c, action, id))
    ensures StepsTo(RegistryOutlook(c), RegistryOutlook(Perform(c, action, id)))
  {
    if AdapterOf(c).Missing? {
      AdapterCreated(c, id);
    } else {
      AdapterStep(c, View(c, accountId, now), AdapterOf(c).value, action, id);
    }
  }

  lemma AdapterStep(c: Catalog, r: Readback, adapter: Entity, action: Action, id: string)
    requires WellFormed(c) && IsFresh(c, id)
    requires AdapterOf(c) == One(adapter)
    requires ReadsBelow(r, c, adapter)
    requires RegistryPlan(r) == Post(action)
    ensures IsRegistryAction(action)
    ensures WellFormed(Perform(c, action, id))
    ensures StepsTo(RegistryOutlook(c), RegistryOutlook(Perform(c, action, id)))
  {
    var after := Perform(c, action, id);
    if SurfaceOf(c, adapter.id).Missing? {
      SurfaceCreated(c, adapter.id, id);
      assert AdapterOf(after) == AdapterOf(c);
    } else {
      var surface := SurfaceOf(c, adapter.id).value;
      SurfaceKept(c, r, adapter, surface, action, id);
      assert AdapterOf(after) == AdapterOf(c) && SurfaceOf(after, adapter.id) == SurfaceOf(c, adapter.id);
    }
  }

  /** The read is complete below an adapter, as far as there is something to read. */
  ghost predicate ReadsBelow(r: Readback, c: Catalog, adapter: Entity) {
    && r.adapters == Whole(c.adapters) && r.surfaces == Whole(SurfacesOf(c, adapter.id))
    && (SurfaceOf(c, adapter.id).One? ==>
          var sid := SurfaceOf(c, adapter.id).value.id;
          && r.profiles == Whole(ProfilesOf(c, adapter.id, sid))
          && r.assignments == Whole(AssignmentsOf(c, adapter.id, sid))
          && (ProfileOf(c, adapter.id, sid).One? ==>
                r.revisions == Whole(RevisionsOf(c, ProfileOf(c, adapter.id, sid).value.id))))
  }
}
