/** The plan at every point of the loop: a read, or the end. */
module PreflightPlans {
  import opened Prelude
  import opened Selection
  import opened Store1Types
  import opened Store1Planner
  import opened PlannerGates
  import opened PagedServer
  import opened PreflightReads

  /** A collection is asked for page by page, and then handed on whole. */
  lemma CompleteReads<T>(field: Collection<T>, p: Pages<T>, first: ReadPath, more: string -> ReadPath, unknown: string)
    requires Progress(field, p)
    ensures var stage := Complete(field, first, more, unknown);
            if Left(field, p) > 0 then
              stage == Stop(Read(if NextCursor(field).None? then first else more(NextCursor(field).value)))
            else field == Whole(Flatten(p)) && stage == Go(Flatten(p))
  {
    CompleteIsWhole(field, p);
  }

  /** A stage that needs a collection asks for its next page, or decides as with everything at hand. */
  ghost predicate StageReads<T>(left: nat, stage: Stage<T>, path: ReadPath, full: Stage<T>) {
    if left > 0 then stage == Stop(Read(path)) else stage == full
  }

  lemma AdapterReads(s: Server, r: Readback)
    requires Reading(s, r)
    ensures StageReads(Left(r.adapters, s.adapters), AdapterStage(r), PathOf(s, r, ADAPTERS), AdapterStage(Full(s, r)))
  {
    CompleteReads(r.adapters, s.adapters, AdaptersPath(None), c => AdaptersPath(Some(c)),
                  "STORE1_ADAPTER_PAGINATION_UNKNOWN");
  }

  lemma SurfaceReads(s: Server, r: Readback)
    requires Reading(s, r)
    ensures StageReads(Left(r.surfaces, SurfacePages(s)), SurfaceStage(r, AdapterId(s)), PathOf(s, r, SURFACES),
                       SurfaceStage(Full(s, r), AdapterId(s)))
  {
    var a := AdapterId(s);
    CompleteReads(r.surfaces, SurfacePages(s), SurfacesPath(a, None), c => SurfacesPath(a, Some(c)),
                  "STORE1_SURFACE_PAGINATION_UNKNOWN");
  }

  lemma ProfileReads(s: Server, r: Readback)
    requires Reading(s, r)
    ensures StageReads(Left(r.profiles, ProfilePages(s)), ProfileStage(r, AdapterId(s), SurfaceId(s)),
                       PathOf(s, r, PROFILES), ProfileStage(Full(s, r), AdapterId(s), SurfaceId(s)))
  {
    var a, f := AdapterId(s), SurfaceId(s);
    CompleteReads(r.profiles, ProfilePages(s), ProfilesPath(a, f, None), c => ProfilesPath(a, f, Some(c)),
                  "STORE1_PROFILE_PAGINATION_UNKNOWN");
  }

  lemma RevisionReads(s: Server, r: Readback)
    requires Reading(s, r)
    ensures StageReads(Left(r.revisions, RevisionPages(s)), RevisionStage(r, ProfileId(s)), PathOf(s, r, REVISIONS),
                       RevisionStage(Full(s, r), ProfileId(s)))
  {
    var p := ProfileId(s);
    CompleteReads(r.revisions, RevisionPages(s), RevisionsPath(p, None), c => RevisionsPath(p, Some(c)),
                  "STORE1_PROFILE_REVISION_PAGINATION_UNKNOWN");
  }

  lemma AssignmentReads(s: Server, r: Readback, revisions: seq<Revision>, revision: Revision)
    requires Reading(s, r)
    ensures AssignmentStage(r, AdapterId(s), SurfaceId(s), revisions, revision) ==
            if Left(r.assignments, AssignmentPages(s)) > 0 then Read(PathOf(s, r, ASSIGNMENTS))
            else AssignmentStage(Full(s, r), AdapterId(s), SurfaceId(s), revisions, revision)
  {
    var a, f := AdapterId(s), SurfaceId(s);
    CompleteReads(r.assignments, AssignmentPages(s), AssignmentsPath(a, f, None), c => AssignmentsPath(a, f, Some(c)),
                  "STORE1_ASSIGNMENT_PAGINATION_UNKNOWN");
  }

  /** The ids that the full stages hand on are the ids of the parts. */
  lemma HandedOn(s: Server, r: Readback)
    ensures AdapterStage(Full(s, r)).Go? ==> AdapterStage(Full(s, r)).value.id == AdapterId(s)
    ensures var f := SurfaceStage(Full(s, r), AdapterId(s)); f.Go? ==> f.value.id == SurfaceId(s)
    ensures var f := ProfileStage(Full(s, r), AdapterId(s), SurfaceId(s)); f.Go? ==> f.value.id == ProfileId(s)
  {
  }

  /** A part of the plan asks for the next page of its own collection, decides, or leaves it to the part below. */
  ghost predicate PartReads(left: nat, path: ReadPath, stops: bool, plan: Plan, full: Plan, below: Plan, fullBelow: Plan) {
    if left > 0 then plan == Read(path) else if stops then plan == full else plan == below && full == fullBelow
  }

  lemma BelowProfileReads(s: Server, r: Readback)
    requires Reading(s, r)
    ensures var a, f, p := AdapterId(s), SurfaceId(s), ProfileId(s);
            var full := PlanBelowProfile(Full(s, r), a, f, p);
            PartReads(Left(r.revisions, RevisionPages(s)), PathOf(s, r, REVISIONS), RevisionStage(Full(s, r), p).Stop?,
                      PlanBelowProfile(r, a, f, p), full,
                      if Left(r.assignments, AssignmentPages(s)) > 0 then Read(PathOf(s, r, ASSIGNMENTS)) else full, full)
  {
    RevisionReads(s, r);
    var v := RevisionStage(Full(s, r), ProfileId(s));
    if v.Go? {
      AssignmentReads(s, r, v.value.0, v.value.1);
    }
  }

  lemma BelowSurfaceReads(s: Server, r: Readback)
    requires Reading(s, r)
    ensures var a, f, p := AdapterId(s), SurfaceId(s), ProfileId(s);
            PartReads(Left(r.profiles, ProfilePages(s)), PathOf(s, r, PROFILES), ProfileStage(Full(s, r), a, f).Stop?,
                      PlanBelowSurface(r, a, f), PlanBelowSurface(Full(s, r), a, f),
                      PlanBelowProfile(r, a, f, p), PlanBelowProfile(Full(s, r), a, f, p))
  {
    HandedOn(s, r);
    ProfileReads(s, r);
  }

  lemma BelowAdapterReads(s: Server, r: Readback)
    requires Reading(s, r)
    ensures var a, f := AdapterId(s), SurfaceId(s);
            PartReads(Left(r.surfaces, SurfacePages(s)), PathOf(s, r, SURFACES), SurfaceStage(Full(s, r), a).Stop?,
                      PlanBelowAdapter(r, a), PlanBelowAdapter(Full(s, r), a),
                      PlanBelowSurface(r, a, f), PlanBelowSurface(Full(s, r), a, f))
  {
    HandedOn(s, r);
    SurfaceReads(s, r);
  }

  lemma TopReads(s: Server, r: Readback)
    requires Reading(s, r)
    ensures PartReads(Left(r.adapters, s.adapters), PathOf(s, r, ADAPTERS), AdapterStage(Full(s, r)).Stop?,
                      RegistryPlan(r), RegistryPlan(Full(s, r)),
                      PlanBelowAdapter(r, AdapterId(s)), PlanBelowAdapter(Full(s, r), AdapterId(s)))
  {
    HandedOn(s, r);
    AdapterReads(s, r);
  }

  /** The parts in turn: the first one that is unfinished is read next, or the first one that stops decides. */
  lemma PartsInTurn(l: Lefts, adapter: bool, surface: bool, profile: bool, revision: bool, path: Part -> ReadPath,
                    plan: Plan, full: Plan, plan1: Plan, full1: Plan, plan2: Plan, full2: Plan, plan3: Plan, full3: Plan)
    requires l.release == l.policies == 0
    requires PartReads(l.adapters, path(ADAPTERS), adapter, plan, full, plan1, full1)
    requires PartReads(l.surfaces, path(SURFACES), surface, plan1, full1, plan2, full2)
    requires PartReads(l.profiles, path(PROFILES), profile, plan2, full2, plan3, full3)
    requires PartReads(l.revisions, path(REVISIONS), revision, plan3, full3,
                       if l.assignments > 0 then Read(path(ASSIGNMENTS)) else full3, full3)
    ensures var next := Current(l, FirstStop(adapter, surface, profile, revision));
            plan == if next.Some? then Read(path(next.value)) else full
  {
  }

  lemma RegistryReads(s: Server, r: Readback)
    requires Reading(s, r)
    ensures var next := Current(LeftsOf(s, r).(release := 0, policies := 0), RegistryLast(s, Full(s, r)));
            RegistryPlan(r) == if next.Some? then Read(PathOf(s, r, next.value)) else RegistryPlan(Full(s, r))
  {
    TopReads(s, r);
    BelowAdapterReads(s, r);
    BelowSurfaceReads(s, r);
    BelowProfileReads(s, r);
    var all, a, f, p := Full(s, r), AdapterId(s), SurfaceId(s), ProfileId(s);
    PartsInTurn(LeftsOf(s, r).(release := 0, policies := 0), AdapterStage(all).Stop?, SurfaceStage(all, a).Stop?,
                ProfileStage(all, a, f).Stop?, RevisionStage(all, p).Stop?, part => PathOf(s, r, part),
                RegistryPlan(r), RegistryPlan(all), PlanBelowAdapter(r, a), PlanBelowAdapter(all, a),
                PlanBelowSurface(r, a, f), PlanBelowSurface(all, a, f), PlanBelowProfile(r, a, f, p), PlanBelowProfile(all, a, f, p));
  }

  lemma CompatibilityReads(s: Server, r: Readback, config: Config)
    requires Reading(s, r)
    ensures var stage, full := CompatibilityStage(r, config), CompatibilityStage(Full(s, r), config);
            var l, last := LeftsOf(s, r), LastPart(s, Full(s, r), config);
            if l.release > 0 then stage == Stop(Read(PathOf(s, r, RELEASES)))
            else if !last.RELEASES? && l.policies > 0 then stage == Stop(Read(PathOf(s, r, POLICIES)))
            else stage == full
    ensures var last := LastPart(s, Full(s, r), config);
            CompatibilityStage(Full(s, r), config).Stop? <==> last.RELEASES? || last.POLICIES?
  {
    assert r.release.Some? ==> ReleaseStage(r) == ReleaseStage(Full(s, r));
  }

  /** Both gates in front of the catalog are open at this time. */
  predicate GatesOpen(r: Readback, now: int) {
    Reviewer(r).Go? && SignedBase(now, r, Reviewer(r).value).Go?
  }

  /** What open gates mean for the readback itself. */
  lemma OpenExactly(r: Readback, now: int)
    ensures GatesOpen(r, now) <==>
              && PrerequisitesSatisfied(r) && r.config.Some? && Provable(r.config.value) && r.proof.Some?
              && Covers(r.proof.value, r.config.value.value, r.accounts.items[0].id, now)
  {
    ReviewerGoesExactly(r);
    if Reviewer(r).Go? {
      BaseGoesExactly(now, r, Reviewer(r).value);
    }
  }

  lemma PlanBehindGates(r: Readback, now: int)
    requires GatesOpen(r, now)
    ensures PlanActivation(true, now, r) == CatalogPlan(r, SignedBase(now, r, Reviewer(r).value).value)
    ensures r.config == Some(Some(SignedBase(now, r, Reviewer(r).value).value))
  {
    BaseIsConfig(r, now);
  }

  lemma BaseIsConfig(r: Readback, now: int)
    requires GatesOpen(r, now)
    ensures r.config == Some(Some(SignedBase(now, r, Reviewer(r).value).value))
  {
  }

  lemma GatesSame(r: Readback, after: Readback, now: int)
    requires SameGates(r, after)
    ensures Reviewer(after) == Reviewer(r)
    ensures Reviewer(r).Go? ==> SignedBase(now, after, Reviewer(r).value) == SignedBase(now, r, Reviewer(r).value)
    ensures GatesOpen(after, now) == GatesOpen(r, now)
  {
  }

  /** Behind open gates: one more read of the next part, or the plan for a complete read. */
  lemma PlanReads(s: Server, r: Readback, config: Config, now: int)
    requires Reading(s, r) && GatesOpen(r, now) && r.config == Some(Some(config))
    ensures var next := Current(LeftsOf(s, r), LastPart(s, Full(s, r), config));
            PlanActivation(true, now, r) ==
            if next.Some? then Read(PathOf(s, r, next.value)) else PlanActivation(true, now, Full(s, r))
  {
    GatesSame(r, Full(s, r), now);
    PlanBehindGates(r, now);
    PlanBehindGates(Full(s, r), now);
    CompatibilityReads(s, r, config);
    RegistryReads(s, r);
  }
}
