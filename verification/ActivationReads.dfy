/** The activation through the paged reads. */
module ActivationReads {
  // What the read loop reports for the catalog that the server holds, round after round.

  import opened Prelude
  import opened Store1Types
  import opened Store1Planner
  import opened Store1Catalog
  import opened Store1Convergence
  import opened Store1Activation
  import opened PagedServer
  import opened PreflightReads
  import opened PreflightPlans
  import opened PreflightLoop

  /** The server hands out this catalog, in whatever pages. */
  ghost predicate Serves(s: Server, c: Catalog) {
    && s.config == Some(c.config) && s.release == c.release && s.policies == c.policies
    && Flatten(s.adapters) == c.adapters
    && (forall a :: Flatten(s.surfaces(a)) == SurfacesOf(c, a))
    && (forall a, f :: Flatten(s.profiles(a, f)) == ProfilesOf(c, a, f))
    && (forall p :: Flatten(s.revisions(p)) == RevisionsOf(c, p))
    && (forall a, f :: Flatten(s.assignments(a, f)) == AssignmentsOf(c, a, f))
  }

  lemma SameIds(s: Server, c: Catalog)
    requires Serves(s, c)
    ensures AdapterId(s) == (var found := AdapterOf(c); if found.One? then found.value.id else "")
    ensures SurfaceId(s) == (var found := SurfaceOf(c, AdapterId(s)); if found.One? then found.value.id else "")
    ensures ProfileId(s) == (var found := ProfileOf(c, AdapterId(s), SurfaceId(s)); if found.One? then found.value.id else "")
  {
    ViewSelects(c, AdapterId(s), SurfaceId(s));
  }

  /** A complete reading is the view of the catalog over which the activation is proved. */
  lemma CompleteReadIsView(s: Server, c: Catalog, r: Readback, accountId: string, now: int)
    requires Serves(s, c) && SameGates(View(c, accountId, now), r)
    ensures Full(s, r) == View(c, accountId, now)
  {
    SameIds(s, c);
  }

  /** The parts of a readback that are not the gates in front of the catalog. */
  predicate SameCatalog(r: Readback, other: Readback) {
    && r.release == other.release && r.policies == other.policies && r.adapters == other.adapters
    && r.surfaces == other.surfaces && r.profiles == other.profiles
    && r.revisions == other.revisions && r.assignments == other.assignments
  }

  lemma CatalogDecides(r: Readback, other: Readback, config: Config)
    requires SameCatalog(r, other)
    ensures CatalogPlan(r, config) == CatalogPlan(other, config)
  {
    CompatibilityDecides(r, other, config);
    RegistryDecides(r, other);
  }

  lemma CompatibilityDecides(r: Readback, other: Readback, config: Config)
    requires SameCatalog(r, other)
    ensures CompatibilityStage(r, config) == CompatibilityStage(other, config)
  {
  }

  lemma RegistryDecides(r: Readback, other: Readback)
    requires SameCatalog(r, other)
    ensures RegistryPlan(r) == RegistryPlan(other)
  {
    forall a
      ensures PlanBelowAdapter(r, a) == PlanBelowAdapter(other, a)
    {
      BelowAdapterDecides(r, other, a);
    }
  }

  lemma BelowAdapterDecides(r: Readback, other: Readback, a: string)
    requires SameCatalog(r, other)
    ensures PlanBelowAdapter(r, a) == PlanBelowAdapter(other, a)
  {
    forall f
      ensures PlanBelowSurface(r, a, f) == PlanBelowSurface(other, a, f)
    {
      BelowSurfaceDecides(r, other, a, f);
    }
  }

  lemma BelowSurfaceDecides(r: Readback, other: Readback, a: string, f: string)
    requires SameCatalog(r, other)
    ensures PlanBelowSurface(r, a, f) == PlanBelowSurface(other, a, f)
  {
  }

  /** With open gates the plan from a complete reading is the plan for the catalog, whenever the proof was made. */
  lemma PlanIsForCatalog(s: Server, c: Catalog, r: Readback, later: int, accountId: string, now: int)
    requires Serves(s, c) && BaseUsable(c.config)
    requires r.config == Some(Some(c.config)) && GatesOpen(r, later)
    ensures PlanActivation(true, later, Full(s, r)) == PlanFor(c, accountId, now)
  {
    var view := View(c, accountId, now);
    CompleteReadIsView(s, c, view, accountId, now);
    GatesSame(r, Full(s, r), later);
    PlanBehindGates(Full(s, r), later);
    GatesPass(c, accountId, now);
    PlanBehindGates(view, now);
    CatalogDecides(Full(s, r), view, c.config);
  }

  /** The start of a loop over a catalog: the reviewer is admitted, the base config and its proof are there. */
  ghost predicate Starts(s: Server, c: Catalog, start: Readback, accountId: string) {
    && HonestServer(s) && Serves(s, c) && Reading(s, start) && Proven(start)
    && Reviewer(start) == Go(accountId) && start.config == Some(Some(c.config))
  }

  /** Such a start exists for every catalog that can be activated: everything in one page, nothing read yet. */
  lemma StartExists(c: Catalog, accountId: string, now: int) returns (s: Server, start: Readback)
    requires BaseUsable(c.config)
    ensures Starts(s, c, start, accountId) && GatesOpen(start, now)
  {
    s := Server(Some(c.config), c.release, c.policies, Last(c.adapters), a => Last(SurfacesOf(c, a)),
                (a, f) => Last(ProfilesOf(c, a, f)), p => Last(RevisionsOf(c, p)), (a, f) => Last(AssignmentsOf(c, a, f)));
    start := View(c, accountId, now).(
      release := None, policies := None, adapters := Unread, surfaces := Unread, profiles := Unread,
      revisions := Unread, assignments := Unread);
    GatesPass(c, accountId, now);
    GatesSame(View(c, accountId, now), start, now);
  }

  /** While the config stands still the second look changes nothing. */
  lemma SettledIsPlan(s: Server, c: Catalog, start: Readback, r: Readback, later: int, plan: Plan, reported: Plan)
    requires Serves(s, c) && start.config == Some(Some(c.config))
    requires Reading(s, r) && SameGates(start, r) && Full(s, r) == Full(s, start) && Proven(r)
    requires ReadsNeeded(s, r, c.config) == 0 && GatesOpen(start, later)
    requires Settles(s, r, plan, later, reported)
    ensures reported == plan || reported == PlanActivation(true, later, Full(s, start))
  {
    assert r.(config := Some(s.config)) == r;
    GatesSame(start, r, later);
    NothingLeft(LeftsOf(s, r), LastPart(s, Full(s, r), c.config));
  }

  /**
   * The read loop reports exactly the plan for the catalog that the server holds, whatever pages it comes
   * in, if the gates stay open and fewer than 64 reads are needed.
   */
  lemma LoopReportsPlan(s: Server, c: Catalog, start: Readback, clock: nat -> int, outcome: Result<Plan>,
                        accountId: string, now: int)
    requires BaseUsable(c.config) && Starts(s, c, start, accountId)
    requires ReadsNeeded(s, start, c.config) < STEPS && OpenUntil(start, clock, ReadsNeeded(s, start, c.config) + 2)
    requires Ends(s, start, c.config, ReadsNeeded(s, start, c.config), clock, outcome)
    ensures outcome == Ok(PlanFor(c, accountId, now))
  {
    var needed := ReadsNeeded(s, start, c.config);
    assert GatesOpen(start, clock(needed)) && GatesOpen(start, clock(needed + 1));
    var r := OpenSettles(s, start, c.config, needed, clock, outcome);
    PlanIsForCatalog(s, c, start, clock(needed), accountId, now);
    PlanIsForCatalog(s, c, start, clock(needed + 1), accountId, now);
    SettledIsPlan(s, c, start, r, clock(needed + 1), PlanActivation(true, clock(needed), Full(s, start)), outcome.value);
  }

  lemma OpenSettles(s: Server, start: Readback, config: Config, needed: nat, clock: nat -> int, outcome: Result<Plan>)
    returns (r: Readback)
    requires Reviewer(start).Go? && needed < STEPS && OpenUntil(start, clock, needed + 2)
    requires Ends(s, start, config, needed, clock, outcome)
    ensures outcome.Ok? && ReadSoFar(s, start, r, config, needed) && Proven(r)
    ensures Settles(s, r, PlanActivation(true, clock(needed), Full(s, start)), clock(needed + 1), outcome.value)
  {
    forall step: nat | step <= needed
      ensures !ClosesAt(start, clock, step, outcome)
    {
      assert GatesOpen(start, clock(step));
    }
    r :| ReadSoFar(s, start, r, config, needed) && Proven(r)
      && Settles(s, r, PlanActivation(true, clock(needed), Full(s, start)), clock(needed + 1), outcome.value);
  }

  /**
   * Plan, apply, read again, through the paged reads: in every round of the activation the read loop over
   * the catalog of that round reports the next mutation, and after the last one READY or a conflict.
   */
  lemma ActivationThroughReads(c: Catalog, accountId: string, now: int, supply: Catalog -> string, rounds: nat,
                               s: Server, start: Readback, clock: nat -> int, outcome: Result<Plan>)
    requires WellFormed(c) && Supplies(supply) && rounds <= CatalogOutlook(c).posts
    requires var held := Rounds(c, accountId, now, supply, rounds);
             && Starts(s, held, start, accountId)
             && ReadsNeeded(s, start, held.config) < STEPS
             && OpenUntil(start, clock, ReadsNeeded(s, start, held.config) + 2)
             && Ends(s, start, held.config, ReadsNeeded(s, start, held.config), clock, outcome)
    ensures outcome.Ok? && (rounds < CatalogOutlook(c).posts <==> outcome.value.Post?)
    ensures rounds == CatalogOutlook(c).posts ==>
              if CatalogOutlook(c).ready then outcome.value.Ready? else outcome.value.Conflict?
    ensures rounds < CatalogOutlook(c).posts ==>
              var held := Rounds(c, accountId, now, supply, rounds);
              Rounds(c, accountId, now, supply, rounds + 1) == Perform(held, outcome.value.action, supply(held))
  {
    var held := Rounds(c, accountId, now, supply, rounds);
    RoundsStep(c, accountId, now, supply, rounds);
    LoopReportsPlan(s, held, start, clock, outcome, accountId, now);
    ActivationConverges(c, accountId, now, supply, rounds);
    NextRound(c, accountId, now, supply, rounds);
  }

  lemma NextRound(c: Catalog, accountId: string, now: int, supply: Catalog -> string, rounds: nat)
    ensures Rounds(c, accountId, now, supply, rounds + 1)
         == Round(Rounds(c, accountId, now, supply, rounds), accountId, now, supply)
  {
  }
}
