/** The whole activation: plan, apply, read again, until READY or a conflict. */
module Store1Activation {
  import opened Prelude
  import opened Selection
  import opened Store1Types
  import opened Store1Planner
  import opened Store1Catalog
  import opened Store1Convergence
  import opened Store1Steps

  lemma FirstStepsTo(before: Outlook, after: Outlook, rest: Outlook)
    requires before.ready && StepsTo(before, after)
    ensures StepsTo(AndThen(before, rest), AndThen(after, rest))
  {
  }

  lemma ReleasePublished(c: Catalog, id: string)
    requires WellFormed(c) && c.release.None?
    ensures var after := Perform(c, PublishRelease(ACCEPTED), id);
            WellFormed(after) && StepsTo(CompatibilityOutlook(c), CompatibilityOutlook(after))
  {
    var after := Perform(c, PublishRelease(ACCEPTED), id);
    assert after.policies == c.policies && after.config == c.config;
    assert ReleaseOutlook(after) == Outlook(0, true);
    FirstStepsTo(ReleaseOutlook(c), ReleaseOutlook(after), PolicyOutlook(c));
  }

  lemma PolicyPublished(c: Catalog, id: string)
    requires WellFormed(c) && IsFresh(c, id) && ReleaseOutlook(c) == Outlook(0, true)
    requires c.policies == [] || PolicyMatches(c.policies[0], PREDECESSOR)
    ensures var after := Perform(c, PublishPolicy, id);
            WellFormed(after) && StepsTo(CompatibilityOutlook(c), CompatibilityOutlook(after))
  {
    var after := Perform(c, PublishPolicy, id);
    assert after.policies[0] == NewPolicy(id);
  }

  lemma ConfigPublished(c: Catalog, id: string)
    requires WellFormed(c) && ReleaseOutlook(c) == Outlook(0, true) && PolicyOutlook(c) == Outlook(1, true)
    ensures var after := Perform(c, PublishConfig(c.config.configVersion, c.policies[0].id), id);
            WellFormed(after) && StepsTo(CompatibilityOutlook(c), CompatibilityOutlook(after))
  {
  }

  lemma CompatibilityStep(r: Readback, c: Catalog, action: Action, id: string)
    requires WellFormed(c) && IsFresh(c, id)
    requires r.release == Some(c.release) && r.policies == Some(c.policies)
    requires CompatibilityStage(r, c.config) == Stop(Post(action))
    ensures !IsRegistryAction(action) && WellFormed(Perform(c, action, id))
    ensures StepsTo(CompatibilityOutlook(c), CompatibilityOutlook(Perform(c, action, id)))
  {
    if c.release.None? {
      ReleasePublished(c, id);
    } else if c.policies == [] || PolicyMatches(c.policies[0], PREDECESSOR) {
      PolicyPublished(c, id);
    } else {
      ConfigPublished(c, id);
    }
  }

  lemma RegistryUntouched(c: Catalog, action: Action, id: string)
    requires !IsRegistryAction(action)
    ensures RegistryOutlook(Perform(c, action, id)) == RegistryOutlook(c)
  {
    var after := Perform(c, action, id);
    assert after.adapters == c.adapters && after.surfaces == c.surfaces && after.profiles == c.profiles;
    assert after.revisions == c.revisions && after.assignments == c.assignments;
    assert forall aid :: SurfacesOf(after, aid) == SurfacesOf(c, aid);
    assert forall pid :: RevisionsOf(after, pid) == RevisionsOf(c, pid);
  }

  lemma CompatibilityUntouched(c: Catalog, action: Action, id: string)
    requires IsRegistryAction(action)
    ensures CompatibilityOutlook(Perform(c, action, id)) == CompatibilityOutlook(c)
  {
  }

  /** Every planned mutation is one of the remaining ones, and the end it leads to stays the same. */
  lemma MutationStep(c: Catalog, accountId: string, now: int, action: Action, id: string)
    requires WellFormed(c) && IsFresh(c, id) && PlanFor(c, accountId, now) == Post(action)
    ensures WellFormed(Perform(c, action, id))
    ensures StepsTo(CatalogOutlook(c), CatalogOutlook(Perform(c, action, id)))
  {
    var r := View(c, accountId, now);
    PlanSplits(c, accountId, now);
    CompatibilityAnnounced(r, c);
    if CompatibilityStage(r, c.config).Stop? {
      CompatibilityStep(r, c, action, id);
      RegistryUntouched(c, action, id);
    } else {
      RegistryStep(c, accountId, now, action, id);
      CompatibilityUntouched(c, action, id);
    }
  }

  /** A source of identifiers that are fresh for whatever catalog asks. */
  ghost predicate Supplies(supply: Catalog -> string) {
    forall c :: IsFresh(c, supply(c))
  }

  lemma SuppliesExist()
    ensures exists supply :: Supplies(supply)
  {
    assert Supplies(FreshId);
  }

  /** One round of planning and applying. */
  ghost function Round(c: Catalog, accountId: string, now: int, supply: Catalog -> string): Catalog {
    var plan := PlanFor(c, accountId, now);
    if plan.Post? then Perform(c, plan.action, supply(c)) else c
  }

  ghost function Iterate<T>(f: T -> T, x: T, n: nat): T {
    if n == 0 then x else f(Iterate(f, x, n - 1))
  }

  /** Each step with something to do keeps what holds and brings the outlook one nearer to its end. */
  ghost predicate Descends<T(!new)>(ok: T -> bool, outlook: T -> Outlook, f: T -> T) {
    forall y | ok(y) && outlook(y).posts > 0 :: ok(f(y)) && StepsTo(outlook(y), outlook(f(y)))
  }

  /** What holds after some steps that each bring the outlook one nearer to its end. */
  lemma {:induction false} IterateDown<T(!new)>(ok: T -> bool, outlook: T -> Outlook, f: T -> T, x: T, n: nat)
    requires ok(x) && n <= outlook(x).posts && Descends(ok, outlook, f)
    ensures ok(Iterate(f, x, n))
    ensures outlook(Iterate(f, x, n)) == Outlook(outlook(x).posts - n, outlook(x).ready)
  {
    if n > 0 {
      IterateDown(ok, outlook, f, x, n - 1);
    }
  }

  ghost function Rounding(accountId: string, now: int, supply: Catalog -> string): Catalog -> Catalog {
    x => Round(x, accountId, now, supply)
  }

  ghost function Rounds(c: Catalog, accountId: string, now: int, supply: Catalog -> string, rounds: nat): Catalog {
    Iterate(Rounding(accountId, now, supply), c, rounds)
  }

  lemma RoundStep(c: Catalog, accountId: string, now: int, supply: Catalog -> string)
    requires WellFormed(c) && IsFresh(c, supply(c)) && CatalogOutlook(c).posts > 0
    ensures WellFormed(Round(c, accountId, now, supply))
    ensures StepsTo(CatalogOutlook(c), CatalogOutlook(Round(c, accountId, now, supply)))
  {
    PlanAnnounced(c, accountId, now);
    MutationStep(c, accountId, now, PlanFor(c, accountId, now).action, supply(c));
  }

  lemma RoundsDescend(accountId: string, now: int, supply: Catalog -> string)
    requires Supplies(supply)
    ensures Descends(WellFormed, CatalogOutlook, Rounding(accountId, now, supply))
  {
    forall c | WellFormed(c) && CatalogOutlook(c).posts > 0
      ensures WellFormed(Round(c, accountId, now, supply))
      ensures StepsTo(CatalogOutlook(c), CatalogOutlook(Round(c, accountId, now, supply)))
    {
      RoundStep(c, accountId, now, supply);
    }
  }

  lemma RoundsStep(c: Catalog, accountId: string, now: int, supply: Catalog -> string, rounds: nat)
    requires WellFormed(c) && Supplies(supply) && rounds <= CatalogOutlook(c).posts
    ensures var after := Rounds(c, accountId, now, supply, rounds);
            && WellFormed(after)
            && CatalogOutlook(after) == Outlook(CatalogOutlook(c).posts - rounds, CatalogOutlook(c).ready)
  {
    RoundsDescend(accountId, now, supply);
    IterateDown(WellFormed, CatalogOutlook, Rounding(accountId, now, supply), c, rounds);
  }

  /**
   * From every well-formed catalog, with a fresh proof after every change: the plan is a mutation in
   * exactly `CatalogOutlook(c).posts` rounds, at most eleven, and then it is READY or a conflict;
   * READY exactly when no conflict applies anywhere in the catalog.
   */
  lemma ActivationConverges(c: Catalog, accountId: string, now: int, supply: Catalog -> string, rounds: nat)
    requires WellFormed(c) && Supplies(supply) && rounds <= CatalogOutlook(c).posts
    ensures CatalogOutlook(c).posts <= 11
    ensures var plan := PlanFor(Rounds(c, accountId, now, supply, rounds), accountId, now);
            && (rounds < CatalogOutlook(c).posts <==> plan.Post?)
            && (rounds == CatalogOutlook(c).posts ==>
                  if CatalogOutlook(c).ready then plan.Ready? else plan.Conflict?)
  {
    RoundsStep(c, accountId, now, supply, rounds);
    PlanAnnounced(Rounds(c, accountId, now, supply, rounds), accountId, now);
  }

  /** An entity is only created where none matches yet. */
  ghost predicate CreatesMissing(c: Catalog, action: Action) {
    match action
    case CreateAdapter => AdapterOf(c).Missing?
    case CreateSurface(aid) => SurfaceOf(c, aid).Missing?
    case CreateProfile(aid, sid) => ProfileOf(c, aid, sid).Missing?
    case CreateRevision(pid) => RevisionOf(c, pid).Missing?
    case CreateAssignment(aid, sid) => AssignmentOf(c, aid, sid).Missing?
    case _ => true
  }

  lemma SurfaceCreatesMissing(c: Catalog, r: Readback, adapter: Entity, surface: Entity, action: Action)
    requires AdapterOf(c) == One(adapter) && SurfaceOf(c, adapter.id) == One(surface)
    requires ReadsBelow(r, c, adapter)
    requires RegistryPlan(r) == Post(action)
    ensures CreatesMissing(c, action)
  {
    ViewSelects(c, adapter.id, surface.id);
    if ProfileOf(c, adapter.id, surface.id).One? {
      var p := ProfileOf(c, adapter.id, surface.id).value;
      assert PlanBelowProfile(r, adapter.id, surface.id, p.id) == Post(action);
      RevisionPlanned(r, c, adapter.id, surface.id, p.id, action);
    }
  }

  lemma AdapterCreatesMissing(c: Catalog, r: Readback, adapter: Entity, action: Action)
    requires AdapterOf(c) == One(adapter) && ReadsBelow(r, c, adapter)
    requires RegistryPlan(r) == Post(action)
    ensures CreatesMissing(c, action)
  {
    if SurfaceOf(c, adapter.id).One? {
      SurfaceCreatesMissing(c, r, adapter, SurfaceOf(c, adapter.id).value, action);
    }
  }

  lemma CompatibilityCreatesNothing(r: Readback, config: Config, action: Action)
    requires CompatibilityStage(r, config) == Stop(Post(action))
    ensures !IsRegistryAction(action)
  {
  }

  lemma CreatedOnlyWhenMissing(c: Catalog, accountId: string, now: int, action: Action)
    requires BaseUsable(c.config) && PlanFor(c, accountId, now) == Post(action)
    ensures CreatesMissing(c, action)
  {
    var r := View(c, accountId, now);
    PlanSplits(c, accountId, now);
    if CompatibilityStage(r, c.config).Stop? {
      CompatibilityCreatesNothing(r, c.config, action);
    } else if AdapterOf(c).One? {
      AdapterCreatesMissing(c, r, AdapterOf(c).value, action);
    }
  }

  function Count<T>(values: seq<T>, matches: T -> bool): nat {
    |Matching(values, matches)|
  }

  /** Appending one element to a list that has no match leaves at most one. */
  lemma CountAppend<T>(values: seq<T>, v: T, matches: T -> bool)
    requires matches(v) ==> ExactOne(values, matches).Missing?
    ensures Count(values + [v], matches) <= 1 || Count(values + [v], matches) == Count(values, matches)
  {
    MatchingAppend(values, [v], matches);
    assert Matching([v], matches) == if matches(v) then [v] else [];
  }

  lemma CountWithState(revisions: seq<Revision>, number: nat, state: RevisionState)
    ensures Count(WithState(revisions, number, state), IsTarget) == Count(revisions, IsTarget)
  {
    var i := IndexOfRevision(revisions, number);
    if i < |revisions| {
      MatchingUpdate(revisions, i, revisions[i].(state := state), IsTarget);
    }
  }

  /** A number of matches that is at most one, or no larger than it was. */
  predicate NoNewDuplicate(before: nat, after: nat) {
    after <= 1 || after <= before
  }

  lemma RegistryCounts(c: Catalog, action: Action, id: string, aid: string)
    requires CreatesMissing(c, action)
    ensures var after := Perform(c, action, id);
            && NoNewDuplicate(Count(c.adapters, IsStore1), Count(after.adapters, IsStore1))
            && NoNewDuplicate(Count(SurfacesOf(c, aid), IsStore1), Count(SurfacesOf(after, aid), IsStore1))
  {
    if action.CreateAdapter? {
      CountAppend(c.adapters, Entity(id, STORE1_KEY, ACTIVE), IsStore1);
    } else if action.CreateSurface? {
      CountAppend(SurfacesOf(c, action.adapterId), Entity(id, STORE1_KEY, ACTIVE), IsStore1);
    }
  }

  lemma ProfileCounts(c: Catalog, action: Action, id: string, aid: string, sid: string)
    requires CreatesMissing(c, action)
    ensures NoNewDuplicate(Count(c.profiles, ProfileScope(aid, sid)),
                           Count(Perform(c, action, id).profiles, ProfileScope(aid, sid)))
  {
    if action.CreateProfile? {
      CountAppend(c.profiles, Profile(id, STORE1_KEY, ACTIVE, action.adapterId, action.surfaceId, None),
                  ProfileScope(aid, sid));
    }
  }

  lemma RevisionCounts(c: Catalog, action: Action, id: string, pid: string)
    requires CreatesMissing(c, action)
    ensures NoNewDuplicate(Count(RevisionsOf(c, pid), IsTarget), Count(RevisionsOf(Perform(c, action, id), pid), IsTarget))
  {
    var revisions := RevisionsOf(c, pid);
    if action.CreateRevision? && action.profileId == pid {
      CountAppend(revisions, Revision(id, NextRevision(revisions), DRAFT, TARGET), IsTarget);
    } else if action.PromoteRevision? {
      CountWithState(revisions, action.revision, CANDIDATE);
    } else if action.PublishRevision? {
      CountWithState(revisions, action.revision, PUBLISHED);
    }
  }

  lemma AssignmentCounts(c: Catalog, action: Action, id: string, aid: string, sid: string)
    requires CreatesMissing(c, action)
    ensures NoNewDuplicate(Count(c.assignments, AssignmentScope(aid, sid)),
                           Count(Perform(c, action, id).assignments, AssignmentScope(aid, sid)))
  {
    if action.CreateAssignment? {
      CountAppend(c.assignments, Assignment(id, action.adapterId, action.surfaceId, None, OPERA, ACCOUNT, None),
                  AssignmentScope(aid, sid));
    } else if action.SelectDirect? {
      var i := IndexOfAssignment(c.assignments, action.assignmentId);
      if i < |c.assignments| {
        MatchingUpdate(c.assignments, i, Selected(c.assignments[i], action.baseline, action.expectedLatest),
                       AssignmentScope(aid, sid));
      }
    }
  }

  /**
   * No planned mutation creates a second STORE-1 adapter, surface of any adapter, profile or
   * assignment of any scope, or target revision of any profile.
   */
  lemma NeverDuplicates(
    c: Catalog, accountId: string, now: int, action: Action, id: string, aid: string, sid: string, pid: string)
    requires BaseUsable(c.config) && PlanFor(c, accountId, now) == Post(action)
    ensures var after := Perform(c, action, id);
            && NoNewDuplicate(Count(c.adapters, IsStore1), Count(after.adapters, IsStore1))
            && NoNewDuplicate(Count(SurfacesOf(c, aid), IsStore1), Count(SurfacesOf(after, aid), IsStore1))
            && NoNewDuplicate(Count(c.profiles, ProfileScope(aid, sid)), Count(after.profiles, ProfileScope(aid, sid)))
            && NoNewDuplicate(Count(RevisionsOf(c, pid), IsTarget), Count(RevisionsOf(after, pid), IsTarget))
            && NoNewDuplicate(Count(c.assignments, AssignmentScope(aid, sid)),
                              Count(after.assignments, AssignmentScope(aid, sid)))
  {
    CreatedOnlyWhenMissing(c, accountId, now, action);
    RegistryCounts(c, action, id, aid);
    ProfileCounts(c, action, id, aid, sid);
    RevisionCounts(c, action, id, pid);
    AssignmentCounts(c, action, id, aid, sid);
  }
}
