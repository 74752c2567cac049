/** The read-only planner: at most 64 steps, and its report. */
module PreflightLoop {
  import opened Prelude
  import opened Store1Types
  import opened Store1Planner
  import opened PlannerGates
  import opened PagedServer
  import opened PreflightReads
  import opened PreflightPlans

  const STEPS := 64
  const DID_NOT_CONVERGE := "STORE1_READ_ONLY_PLAN_DID_NOT_CONVERGE"

  function ReadsNeeded(s: Server, r: Readback, config: Config): nat
    requires Reading(s, r)
  {
    Total(LeftsOf(s, r), LastPart(s, Full(s, r), config))
  }

  /** The answer is one page further, with everything else as before. */
  ghost predicate Brings(s: Server, r: Readback, config: Config, answer: Result<Readback>)
    requires Reading(s, r)
  {
    && answer.Ok? && Reading(s, answer.value) && SameGates(r, answer.value)
    && Full(s, answer.value) == Full(s, r)
    && ReadsNeeded(s, answer.value, config) == ReadsNeeded(s, r, config) - 1
  }

  lemma FullDecides(s: Server, r: Readback, now: int)
    requires GatesOpen(r, now)
    ensures !PlanActivation(true, now, Full(s, r)).Read?
  {
    GatesSame(r, Full(s, r), now);
    PlanBehindGates(Full(s, r), now);
    FullRegistryDecides(s, r);
  }

  lemma FullRegistryDecides(s: Server, r: Readback)
    ensures !RegistryPlan(Full(s, r)).Read?
  {
    HandedOn(s, r);
  }

  /** Every step of the loop reads exactly one page, or decides from a complete read. */
  lemma LoopStep(s: Server, r: Readback, config: Config, now: int)
    requires HonestServer(s) && Reading(s, r) && GatesOpen(r, now) && r.config == Some(Some(config))
    ensures var plan := PlanActivation(true, now, r);
            if ReadsNeeded(s, r, config) > 0 then plan.Read? && Brings(s, r, config, Capture(s, plan.path, r))
            else !plan.Read? && plan == PlanActivation(true, now, Full(s, r))
  {
    var l, last := LeftsOf(s, r), LastPart(s, Full(s, r), config);
    PlanReads(s, r, config, now);
    TotalDrops(l, last);
    var next := Current(l, last);
    if next.Some? {
      ReadRouted(s, r, next.value);
    } else {
      FullDecides(s, r, now);
    }
  }

  /** The config and the proof have been read, so that a closed gate ends the loop. */
  predicate Proven(r: Readback) {
    Reviewer(r).Go? && r.config.Some? && r.proof.Some?
  }

  lemma ClosedGate(r: Readback, now: int)
    requires Proven(r) && !GatesOpen(r, now)
    ensures SignedBase(now, r, Reviewer(r).value).Stop?
    ensures var plan := SignedBase(now, r, Reviewer(r).value).plan;
            PlanActivation(true, now, r) == plan && (plan.Blocked? || plan.Conflict?)
  {
  }

  /** The gates have been open at every step before this one. */
  ghost predicate OpenUntil(r: Readback, clock: nat -> int, step: nat) {
    forall k | 0 <= k < step :: GatesOpen(r, clock(k))
  }

  /** The plan from a part of the catalog: the next page that it needs, or the plan for the complete catalog. */
  ghost predicate PlansFrom(s: Server, r: Readback, config: Config, now: int, plan: Plan)
    requires Reading(s, r)
  {
    var next := Current(LeftsOf(s, r), LastPart(s, Full(s, r), config));
    plan == if next.Some? then Read(PathOf(s, r, next.value)) else PlanActivation(true, now, Full(s, r))
  }

  /**
   * What is reported for a plan that was decided after `r` had been read. Before a mutation or READY the
   * config is read once more, and everything is planned again from the same part of the catalog.
   */
  ghost predicate Settles(s: Server, r: Readback, plan: Plan, later: int, reported: Plan)
    requires Reviewer(r).Go? && Reading(s, r)
  {
    var again := r.(config := Some(s.config));
    if !plan.Post? && !plan.Ready? then reported == plan
    else if !GatesOpen(again, later) then SignedBase(later, again, Reviewer(r).value) == Stop(reported)
    else s.config.Some? && PlansFrom(s, again, s.config.value, later, reported)
  }

  /** A gate that is closed when the plan is made at `step` ends the loop there. */
  ghost predicate ClosesAt(start: Readback, clock: nat -> int, step: nat, outcome: Result<Plan>)
    requires Reviewer(start).Go?
  {
    && OpenUntil(start, clock, step) && !GatesOpen(start, clock(step))
    && outcome.Ok? && SignedBase(clock(step), start, Reviewer(start).value) == Stop(outcome.value)
  }

  /** `r` is what `step` reads have made of `start`. */
  ghost predicate ReadSoFar(s: Server, start: Readback, r: Readback, config: Config, step: nat) {
    && Reading(s, start) && Reading(s, r) && SameGates(start, r) && Full(s, r) == Full(s, start)
    && ReadsNeeded(s, r, config) == ReadsNeeded(s, start, config) - step
  }

  /** Everything that the loop can end with, for the number of reads that it needs. */
  ghost predicate Ends(s: Server, start: Readback, config: Config, needed: nat, clock: nat -> int, outcome: Result<Plan>)
    requires Reviewer(start).Go?
  {
    || (exists step: nat | step <= needed && step < STEPS :: ClosesAt(start, clock, step, outcome))
    || (&& needed < STEPS && OpenUntil(start, clock, needed + 1) && outcome.Ok?
        && exists r | ReadSoFar(s, start, r, config, needed) && Proven(r) ::
             Settles(s, r, PlanActivation(true, clock(needed), Full(s, start)), clock(needed + 1), outcome.value))
    || (needed >= STEPS && OpenUntil(start, clock, STEPS) && outcome == Err(DID_NOT_CONVERGE))
  }

  lemma StepClosed(s: Server, start: Readback, r: Readback, config: Config, clock: nat -> int, step: nat)
    requires Proven(start) && ReadSoFar(s, start, r, config, step) && step < STEPS
    requires OpenUntil(start, clock, step) && !GatesOpen(start, clock(step))
    ensures var plan := PlanActivation(true, clock(step), r);
            && (plan.Blocked? || plan.Conflict?)
            && Ends(s, start, config, ReadsNeeded(s, start, config), clock, Ok(plan))
  {
    GatesSame(start, r, clock(step));
    ClosedGate(r, clock(step));
    assert ClosesAt(start, clock, step, Ok(PlanActivation(true, clock(step), r)));
  }

  lemma StepReads(s: Server, start: Readback, r: Readback, config: Config, now: int, step: nat)
    requires HonestServer(s) && ReadSoFar(s, start, r, config, step)
    requires GatesOpen(start, now) && start.config == Some(Some(config))
    ensures var plan := PlanActivation(true, now, r);
            if ReadsNeeded(s, r, config) > 0 then
              plan.Read? && Capture(s, plan.path, r).Ok? &&
              ReadSoFar(s, start, Capture(s, plan.path, r).value, config, step + 1)
            else !plan.Read? && plan == PlanActivation(true, now, Full(s, start))
  {
    GatesSame(start, r, now);
    LoopStep(s, r, config, now);
  }

  /** After a decision the config is read once more: a closed gate decides, or the whole plan is made again. */
  lemma Recheck(s: Server, r: Readback, now: int, later: int)
    requires Proven(r) && Reading(s, r)
    ensures var plan, checked := PlanActivation(true, now, r), PlanActivation(true, later, r.(config := Some(s.config)));
            Settles(s, r, plan, later, if plan.Post? || plan.Ready? then checked else plan)
  {
    var again := r.(config := Some(s.config));
    if GatesOpen(again, later) {
      OpenHasConfig(again, later);
      PlanReads(s, again, s.config.value, later);
    } else {
      ClosedGate(again, later);
    }
  }

  lemma OpenHasConfig(r: Readback, now: int)
    requires GatesOpen(r, now)
    ensures r.config.Some? && r.config.value.Some?
  {
  }

  /** The start of every step of the loop. */
  ghost predicate Looping(s: Server, start: Readback, r: Readback, config: Config, clock: nat -> int, step: nat) {
    ReadSoFar(s, start, r, config, step) && OpenUntil(start, clock, step)
  }

  ghost predicate Loopable(s: Server, start: Readback, config: Config) {
    HonestServer(s) && Reading(s, start) && Proven(start) && start.config == Some(Some(config))
  }

  lemma StepOn(s: Server, start: Readback, r: Readback, config: Config, clock: nat -> int, step: nat)
    requires Loopable(s, start, config) && Looping(s, start, r, config, clock, step) && step < STEPS
    requires PlanActivation(true, clock(step), r).Read?
    ensures var answer := Capture(s, PlanActivation(true, clock(step), r).path, r);
            answer.Ok? && Looping(s, start, answer.value, config, clock, step + 1)
  {
    if GatesOpen(start, clock(step)) {
      StepReads(s, start, r, config, clock(step), step);
    } else {
      StepClosed(s, start, r, config, clock, step);
    }
  }

  lemma StepDecides(s: Server, start: Readback, r: Readback, config: Config, clock: nat -> int, step: nat)
    requires Loopable(s, start, config) && Looping(s, start, r, config, clock, step) && step < STEPS
    requires GatesOpen(start, clock(step)) && !PlanActivation(true, clock(step), r).Read?
    ensures step == ReadsNeeded(s, start, config)
    ensures PlanActivation(true, clock(step), r) == PlanActivation(true, clock(step), Full(s, start))
  {
    StepReads(s, start, r, config, clock(step), step);
  }

  lemma StepSettles(s: Server, start: Readback, r: Readback, config: Config, clock: nat -> int, needed: nat, reported: Plan)
    requires Proven(start) && needed < STEPS && OpenUntil(start, clock, needed) && GatesOpen(start, clock(needed))
    requires ReadSoFar(s, start, r, config, needed) && Proven(r)
    requires Settles(s, r, PlanActivation(true, clock(needed), Full(s, start)), clock(needed + 1), reported)
    ensures Ends(s, start, config, needed, clock, Ok(reported))
  {
  }

  lemma StepEnds(s: Server, start: Readback, r: Readback, config: Config, clock: nat -> int, step: nat)
    requires Loopable(s, start, config) && Looping(s, start, r, config, clock, step) && step < STEPS
    requires !PlanActivation(true, clock(step), r).Read?
    ensures var plan := PlanActivation(true, clock(step), r);
            var checked := PlanActivation(true, clock(step + 1), r.(config := Some(s.config)));
            Ends(s, start, config, ReadsNeeded(s, start, config), clock,
                 Ok(if plan.Post? || plan.Ready? then checked else plan))
  {
    var plan := PlanActivation(true, clock(step), r);
    var checked := PlanActivation(true, clock(step + 1), r.(config := Some(s.config)));
    if GatesOpen(start, clock(step)) {
      StepDecides(s, start, r, config, clock, step);
      Recheck(s, r, clock(step), clock(step + 1));
      StepSettles(s, start, r, config, clock, step, if plan.Post? || plan.Ready? then checked else plan);
    } else {
      StepClosed(s, start, r, config, clock, step);
    }
  }

  lemma StepsRunOut(s: Server, start: Readback, r: Readback, config: Config, clock: nat -> int)
    requires Loopable(s, start, config) && Looping(s, start, r, config, clock, STEPS)
    ensures Ends(s, start, config, ReadsNeeded(s, start, config), clock, Err(DID_NOT_CONVERGE))
  {
  }

  /** The loop of `runReadOnlyPlanner`; `clock` gives the time at which each plan is made. */
  method ReadAndPlan(s: Server, start: Readback, config: Config, clock: nat -> int) returns (outcome: Result<Plan>)
    requires Loopable(s, start, config)
    ensures Ends(s, start, config, ReadsNeeded(s, start, config), clock, outcome)
  {
    var r := start;
    var step := 0;
    while step < STEPS
      invariant 0 <= step <= STEPS && Looping(s, start, r, config, clock, step)
    {
      var plan := PlanActivation(true, clock(step), r);
      if plan.Read? {
        StepOn(s, start, r, config, clock, step);
        var answer := Capture(s, plan.path, r);
        r := answer.value;
        step := step + 1;
        continue;
      }
      StepEnds(s, start, r, config, clock, step);
      if plan.Post? || plan.Ready? {
        r := r.(config := Some(s.config));
        return Ok(PlanActivation(true, clock(step + 1), r));
      }
      return Ok(plan);
    }
    StepsRunOut(s, start, r, config, clock);
    return Err(DID_NOT_CONVERGE);
  }

  /** With open gates the loop fails exactly when the catalog needs 64 reads or more. */
  lemma FailsExactlyWhenTooLong(s: Server, start: Readback, config: Config, needed: nat, clock: nat -> int, outcome: Result<Plan>)
    requires Reviewer(start).Go? && OpenUntil(start, clock, STEPS + 1) && Ends(s, start, config, needed, clock, outcome)
    ensures outcome.Err? <==> needed >= 64
  {
    forall step: nat | step < STEPS
      ensures !ClosesAt(start, clock, step, outcome)
    {
      assert GatesOpen(start, clock(step));
    }
  }

  /**
   * Whatever the config is by then: a reported mutation or READY is the plan for the complete catalog under
   * the config that was read last, while the proof covers that config. So nothing is reported as to be
   * created while pages that decide about it remain.
   */
  lemma ReportIsCovered(s: Server, start: Readback, config: Config, needed: nat, clock: nat -> int, reported: Plan)
    requires Proven(start) && Ends(s, start, config, needed, clock, Ok(reported))
    requires reported.Post? || reported.Ready?
    ensures needed < STEPS && PrerequisitesSatisfied(start) && Provable(s.config)
    ensures Covers(start.proof.value, s.config.value, start.accounts.items[0].id, clock(needed + 1))
    ensures PlanActivation(true, clock(needed + 1), Full(s, start).(config := Some(s.config))) == reported
  {
    var r := SettledFrom(s, start, config, needed, clock, reported);
    SettledReport(s, start, r, PlanActivation(true, clock(needed), Full(s, start)), clock(needed + 1), reported);
    OpenExactly(start.(config := Some(s.config)), clock(needed + 1));
  }

  /** What is neither a blocker nor a conflict has been settled after all the reads that are needed. */
  lemma SettledFrom(s: Server, start: Readback, config: Config, needed: nat, clock: nat -> int, reported: Plan)
    returns (r: Readback)
    requires Proven(start) && Ends(s, start, config, needed, clock, Ok(reported))
    requires !reported.Blocked? && !reported.Conflict?
    ensures needed < STEPS && OpenUntil(start, clock, needed + 1) && GatesOpen(start, clock(needed))
    ensures ReadSoFar(s, start, r, config, needed) && Proven(r)
    ensures Settles(s, r, PlanActivation(true, clock(needed), Full(s, start)), clock(needed + 1), reported)
  {
    forall step: nat
      ensures !ClosesAt(start, clock, step, Ok(reported))
    {
      ClosedIsNoReport(start, clock, step, reported);
    }
    r :| ReadSoFar(s, start, r, config, needed) && Proven(r)
      && Settles(s, r, PlanActivation(true, clock(needed), Full(s, start)), clock(needed + 1), reported);
  }

  /** Only a policy that the config does not include yet stops the plan under one config and not under another. */
  lemma OtherConfigReads(s: Server, r: Readback, config: Config, other: Config)
    requires Reading(s, r) && ReadsNeeded(s, r, config) == 0
    requires Current(LeftsOf(s, r), LastPart(s, Full(s, r), other)).Some?
    ensures CompatibilityStage(Full(s, r), config).Stop?
    ensures var plan := CompatibilityStage(Full(s, r), config).plan; plan.Post? && plan.action.PublishConfig?
  {
    NothingLeft(LeftsOf(s, r), LastPart(s, Full(s, r), config));
    PolicyStops(s, Full(s, r), config, other);
  }

  lemma NothingLeft(l: Lefts, last: Part)
    requires Total(l, last) == 0
    ensures Current(l, last).None? && Current(l, RELEASES).None?
    ensures !last.RELEASES? ==> Current(l, POLICIES).None?
  {
  }

  lemma PolicyStops(s: Server, all: Readback, config: Config, other: Config)
    requires LastPart(s, all, config) != LastPart(s, all, other)
    ensures LastPart(s, all, other).POLICIES? ==> !LastPart(s, all, config).RELEASES?
    ensures !LastPart(s, all, other).POLICIES? ==>
              && CompatibilityStage(all, config).Stop? && CompatibilityStage(all, config).plan.Post?
              && CompatibilityStage(all, config).plan.action.PublishConfig?
  {
  }

  /**
   * A read is reported only in place of the publication of a config, when the config that was read last
   * includes the policy by itself and pages behind it are unread.
   */
  lemma ReadOnlyAfterPublication(s: Server, start: Readback, config: Config, clock: nat -> int, path: ReadPath)
    requires Loopable(s, start, config)
    requires Ends(s, start, config, ReadsNeeded(s, start, config), clock, Ok(Read(path)))
    ensures var plan := PlanActivation(true, clock(ReadsNeeded(s, start, config)), Full(s, start));
            plan.Post? && plan.action.PublishConfig?
  {
    var needed := ReadsNeeded(s, start, config);
    var r := SettledFrom(s, start, config, needed, clock, Read(path));
    ReadSettles(s, start, r, config, clock(needed), clock(needed + 1), path);
  }

  lemma ReadSettles(s: Server, start: Readback, r: Readback, config: Config, now: int, later: int, path: ReadPath)
    requires GatesOpen(start, now) && start.config == Some(Some(config))
    requires Proven(r) && Reading(s, r) && SameGates(start, r) && Full(s, r) == Full(s, start) && ReadsNeeded(s, r, config) == 0
    requires Settles(s, r, PlanActivation(true, now, Full(s, start)), later, Read(path))
    ensures var plan := PlanActivation(true, now, Full(s, start)); plan.Post? && plan.action.PublishConfig?
  {
    FullDecides(s, start, now);
    SettledRead(s, r, PlanActivation(true, now, Full(s, start)), later, path);
    LastPartIgnoresConfig(s, r, s.config, s.config.value);
    OtherConfigReads(s, r, config, s.config.value);
    GatesSame(start, Full(s, start), now);
    PlanBehindGates(Full(s, start), now);
  }

  lemma SettledRead(s: Server, r: Readback, plan: Plan, later: int, path: ReadPath)
    requires Proven(r) && Reading(s, r) && !plan.Read? && Settles(s, r, plan, later, Read(path))
    ensures s.config.Some?
    ensures Current(LeftsOf(s, r), LastPart(s, Full(s, r.(config := Some(s.config))), s.config.value)).Some?
  {
    var again := r.(config := Some(s.config));
    ClosedReports(again, later);
    if GatesOpen(again, later) {
      FullDecides(s, again, later);
    }
  }

  lemma LastPartIgnoresConfig(s: Server, r: Readback, read: Option<Config>, config: Config)
    ensures LastPart(s, Full(s, r.(config := Some(read))), config) == LastPart(s, Full(s, r), config)
  {
    var all, other := Full(s, r), Full(s, r.(config := Some(read)));
    assert other == all.(config := Some(read));
    AdapterIgnoresConfig(all, read);
    SurfaceIgnoresConfig(all, read, AdapterId(s));
    ProfileIgnoresConfig(all, read, AdapterId(s), SurfaceId(s));
    RevisionIgnoresConfig(all, read, ProfileId(s));
    CompatibilityIgnoresConfig(all, read, config);
  }

  lemma AdapterIgnoresConfig(r: Readback, read: Option<Config>)
    ensures AdapterStage(r.(config := Some(read))) == AdapterStage(r)
  {
  }

  lemma SurfaceIgnoresConfig(r: Readback, read: Option<Config>, a: string)
    ensures SurfaceStage(r.(config := Some(read)), a) == SurfaceStage(r, a)
  {
  }

  lemma ProfileIgnoresConfig(r: Readback, read: Option<Config>, a: string, f: string)
    ensures ProfileStage(r.(config := Some(read)), a, f) == ProfileStage(r, a, f)
  {
  }

  lemma RevisionIgnoresConfig(r: Readback, read: Option<Config>, p: string)
    ensures RevisionStage(r.(config := Some(read)), p) == RevisionStage(r, p)
  {
  }

  lemma CompatibilityIgnoresConfig(r: Readback, read: Option<Config>, config: Config)
    ensures ReleaseStage(r.(config := Some(read))) == ReleaseStage(r)
    ensures PolicyStage(r.(config := Some(read)), config) == PolicyStage(r, config)
  {
  }

  lemma SettledReport(s: Server, start: Readback, r: Readback, plan: Plan, later: int, reported: Plan)
    requires Proven(start) && Reading(s, r) && SameGates(start, r) && Full(s, r) == Full(s, start)
    requires Settles(s, r, plan, later, reported) && (reported.Post? || reported.Ready?)
    ensures GatesOpen(start.(config := Some(s.config)), later)
    ensures PlanActivation(true, later, Full(s, start).(config := Some(s.config))) == reported
  {
    var again := r.(config := Some(s.config));
    GatesSame(start.(config := Some(s.config)), again, later);
    ClosedReports(again, later);
    assert Full(s, again) == Full(s, start).(config := Some(s.config));
  }

  lemma ClosedIsNoReport(start: Readback, clock: nat -> int, step: nat, reported: Plan)
    requires Proven(start)
    ensures ClosesAt(start, clock, step, Ok(reported)) ==> reported.Blocked? || reported.Conflict?
  {
    ClosedReports(start, clock(step));
  }

  lemma ClosedReports(r: Readback, now: int)
    requires Proven(r)
    ensures var gate := SignedBase(now, r, Reviewer(r).value); gate.Stop? ==> gate.plan.Blocked? || gate.plan.Conflict?
  {
  }
}
