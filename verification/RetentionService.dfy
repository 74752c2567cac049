/** The runner, its child and the maintenance together, call after call. */
module RetentionService {
  import opened Prelude
  import opened RetentionLimits
  import opened RetentionPages
  import opened RetentionSweep
  import opened RetentionScan
  import opened RetentionRun
  import opened RetentionArgs
  import opened RetentionRunner
  import opened RetentionHistory

  /** The texts of cursors: how they are written and read, and which texts the two programs accept. */
  datatype Form = Form(text: Cursor -> CursorText, read: CursorText -> Cursor,
                       isDate: string -> bool, isTime: string -> bool, words: Vocabulary)

  /** A cursor's text is a date, and reading it gives the cursor back. */
  ghost predicate Exact(form: Form) {
    forall c :: form.read(form.text(c)) == c && form.isDate(form.text(c).completedAt)
  }

  /** One call of the runner; `tell` is what it gets to see of the result that its child reports. */
  datatype Call = Call(apply: bool, overlap: bool, env: Environment, tell: Report -> Invocation)

  /** A result that arrives has the kind and the cursor that were reported, whatever became of the rest. */
  ghost predicate TellsTruth(call: Call, form: Form) {
    forall r :: call.tell(r).Answered? ==>
      call.tell(r).report.kind == Some(r.kind) && call.tell(r).report.nextCursor == Printed(r.nextCursor, form.text)
  }

  predicate SafeCursor(text: CursorText, isTime: string -> bool) {
    SafeTimestamp(text.completedAt, isTime) && SafeRunId(text.runId)
  }

  /** The state file holds the cursor that the saved runs have reached. */
  predicate Follows(file: CursorFile, h: History, form: Form) {
    match CursorAfter(h)
    case None => file.Absent?
    case Some(c) => file == Saved(form.text(c)) && SafeCursor(form.text(c), form.isTime)
  }

  /** The call gets as far as the inventory of an application. */
  predicate Sweeps(call: Call) {
    call.apply && !call.overlap && call.env.ready
  }

  function PlanIn(env: Environment): Plan {
    PlanOf(true, DEFAULTS, env)
  }

  /** What the child understands of a call. */
  function Understood(apply: bool, sent: Option<CursorText>, form: Form): Result<Parsed> {
    Meaning(apply, Flags(Command(apply, sent)[1..]), form.isDate)
  }

  function Plain(cursor: Option<CursorText>): Result<Parsed> {
    Ok(Parsed(true, true, cursor, NO_LIMITS))
  }

  lemma SafeCursorArrives(text: CursorText, form: Form)
    requires SafeCursor(text, form.isTime) && form.isDate(text.completedAt)
    ensures Understood(true, Some(text), form) == Plain(Some(text))
  {
    SafeTextsAreOneLine(text, form.isTime);
    CursorArrives(text, form.isDate);
  }

  lemma NoCursorArrives(form: Form)
    ensures Understood(true, None, form) == Plain(None)
  {
    NamesAreFlagNames();
    FlagRoundTrip(CONFIRM, CONFIRM_VALUE);
    OneFlag(Flag(CONFIRM, CONFIRM_VALUE), CONFIRM, CONFIRM_VALUE);
    assert Command(true, None)[1..] == [Flag(CONFIRM, CONFIRM_VALUE)];
  }

  lemma OneFlag(flag: string, name: string, value: string)
    requires SplitFlag(flag) == Some((name, value))
    ensures Flags([flag]) == Ok(map[name := value])
  {
    assert [flag][..0] == [];
  }

  /** What the child understands when the state file follows the saved runs. */
  lemma SavedCursorUnderstood(file: CursorFile, h: History, form: Form)
    requires Exact(form) && Follows(file, h, form)
    ensures !file.Unusable?
    ensures Understood(true, if file.Saved? then Some(file.cursor) else None, form) == Plain(Printed(CursorAfter(h), form.text))
  {
    if file.Saved? {
      SafeCursorArrives(file.cursor, form);
    } else {
      NoCursorArrives(form);
    }
  }

  /** What the texts of a cursor are read as. */
  function ReadFrom(text: Option<CursorText>, form: Form): Option<Cursor> {
    if text.None? then None else Some(form.read(text.value))
  }

  /** The report and the trace of one run from a cursor. */
  ghost predicate Ran(p: Plan, env: Environment, from: Option<Cursor>, r: Report, trace: Trace) {
    if env.ready then
      Truthful(p, from, env, r, trace) && ReportsKind(p, env, r, trace) && DeadlineTold(p, env, r, trace)
    else r == MissingAuthority()
  }

  /** The arguments are accepted, and those of an application confirm it. */
  predicate Commanded(args: seq<string>, form: Form) {
    && args != [] && args[0] in [INSPECT, APPLY]
    && var parsed := Meaning(args[0] == APPLY, Flags(args[1..]), form.isDate); parsed.Ok? && parsed.value.confirm
  }

  /** The maintenance command: its arguments, then one run in their mode, with their limits and from their cursor. */
  method Maintain(args: seq<string>, env: Environment, form: Form)
    returns (r: Result<Report>, ghost limits: Limits, ghost trace: Trace)
    ensures r.Ok? <==> Commanded(args, form)
    ensures r.Ok? ==>
              var parsed := Meaning(args[0] == APPLY, Flags(args[1..]), form.isDate).value;
              && Meant(parsed.limits, limits)
              && Ran(PlanOf(args[0] == APPLY, limits, env), env, ReadFrom(parsed.cursor, form), r.value, trace)
  {
    trace, limits := NOTHING_DONE, DEFAULTS;
    var parsed := ParseArgs(args, form.isDate);
    if parsed.Err? {
      return Err(parsed.code), limits, trace;
    }
    if !parsed.value.confirm {
      return Err("MONITOR_PILOT_RETENTION_APPLY_CONFIRM_REQUIRED"), limits, trace;
    }
    // The arguments have only been accepted with limits that can be resolved.
    var resolved := ResolveLimits(parsed.value.limits);
    limits := resolved.value;
    var report;
    report, trace := RunMaintenance(parsed.value.apply, resolved.value, ReadFrom(parsed.value.cursor, form), env);
    r := Ok(report);
  }

  /** An application that goes through was confirmed in so many words. */
  lemma AppliesOnlyConfirmed(args: seq<string>, form: Form)
    requires Commanded(args, form) && args[0] == "apply"
    ensures Flags(args[1..]).Ok?
    ensures var flags := Flags(args[1..]).value;
            "confirm" in flags && flags["confirm"] == "ISOLATED_MONITOR_PILOT_RETENTION"
  {
  }

  /** A child that was given nothing but a cursor runs with the default limits. */
  lemma PlainLimits(limits: Limits)
    requires Meant(NO_LIMITS, limits)
    ensures limits == Limits(500, 500, 5000, 250, 250, 250, 30000)
  {
  }

  /** The child with the arguments that the runner gives it; an application that it understands as plain does run. */
  method RunChild(apply: bool, sent: Option<CursorText>, env: Environment, form: Form, ghost text: Option<CursorText>)
    returns (r: Result<Report>, ghost trace: Trace)
    ensures apply && Understood(apply, sent, form) == Plain(text) ==>
              r.Ok? && Ran(PlanIn(env), env, ReadFrom(text, form), r.value, trace)
  {
    ghost var limits;
    r, limits, trace := Maintain(Command(apply, sent), env, form);
    if apply && Understood(apply, sent, form) == Plain(text) {
      PlainLimits(limits);
    }
  }

  /** What a call has added to the history: the reads of its inventory, and whether its cursor was saved. */
  datatype Entry = Entry(sweep: Sweep, saved: bool)

  ghost predicate Adds(call: Call, h: History, entry: Option<Entry>) {
    && (entry.Some? <==> Sweeps(call))
    && (entry.Some? ==>
          && Chained(entry.value.sweep) && Origin(entry.value.sweep) == CursorAfter(h)
          && Asked(call.env.inventory, PlanIn(call.env), entry.value.sweep))
  }

  function Extended(h: History, entry: Option<Entry>): History {
    if entry.None? then h else Later(h, entry.value.sweep, entry.value.saved)
  }

  lemma RanAdds(call: Call, h: History, from: Option<Cursor>, r: Report, trace: Trace, saved: bool)
    requires Sweeps(call) && from == CursorAfter(h) && Ran(PlanIn(call.env), call.env, from, r, trace)
    ensures Adds(call, h, Some(Entry(trace.sweep, saved)))
    ensures ReportsKind(PlanIn(call.env), call.env, r, trace) && r.nextCursor == Reached(trace.sweep)
  {
  }

  lemma MissingIsRefused(call: Call, form: Form)
    requires TellsTruth(call, form)
    ensures !Acceptable(true, call.tell(MissingAuthority()), form.words, form.isTime)
  {
  }

  /** A result that the runner accepts leaves the file at the end of the run's reads. */
  lemma AcceptedIsSaved(call: Call, h: History, r: Report, trace: Trace, file: CursorFile, form: Form)
    requires TellsTruth(call, form) && Sweeps(call)
    requires ReportsKind(PlanIn(call.env), call.env, r, trace) && r.nextCursor == Reached(trace.sweep)
    requires Acceptable(true, call.tell(r), form.words, form.isTime)
    requires file == FileAfter(call.tell(r).report.kind.value, call.tell(r).report.nextCursor)
    ensures Follows(file, Later(h, trace.sweep, true), form)
  {
    FileHoldsNextCursor(PlanIn(call.env), call.env, r, trace, form.text);
  }

  /** What a call that sweeps adds, whether its result was accepted and saved or not. */
  lemma SweepAdds(call: Call, h: History, r: Report, trace: Trace, saved: bool, before: CursorFile, after: CursorFile, form: Form)
    requires TellsTruth(call, form) && Sweeps(call) && Follows(before, h, form)
    requires Ran(PlanIn(call.env), call.env, CursorAfter(h), r, trace)
    requires if saved
             then Acceptable(true, call.tell(r), form.words, form.isTime)
                  && after == FileAfter(call.tell(r).report.kind.value, call.tell(r).report.nextCursor)
             else after == before
    ensures Adds(call, h, Some(Entry(trace.sweep, saved)))
    ensures Follows(after, Later(h, trace.sweep, saved), form)
  {
    RanAdds(call, h, CursorAfter(h), r, trace, saved);
    if saved {
      AcceptedIsSaved(call, h, r, trace, after, form);
    }
  }

  /** The runner deals with what came of its child. */
  method Hand(runner: RetentionRunner, call: Call, answer: Invocation, form: Form) returns (saved: bool)
    requires !runner.cursorFile.Unusable?
    modifies runner
    ensures saved ==>
              && call.apply && !call.overlap && Acceptable(true, answer, form.words, form.isTime)
              && runner.cursorFile == FileAfter(answer.report.kind.value, answer.report.nextCursor)
    ensures !saved ==> runner.cursorFile == old(runner.cursorFile)
  {
    var cursor := if call.apply && runner.cursorFile.Saved? then Some(runner.cursorFile.cursor) else None;
    var invoke := (mode: bool, sent: Option<CursorText>) =>
      if mode == call.apply && sent == cursor then answer else Invocation.Failed("ANOTHER_CALL");
    var r := runner.RunOnce(call.apply, call.overlap, invoke, form.words, form.isTime);
    saved := call.apply && !call.overlap && r.Ok?;
  }

  /** The child of a call, unless another runner holds the lock. */
  method Answered(call: Call, sent: Option<CursorText>, form: Form, ghost text: Option<CursorText>)
    returns (report: Result<Report>, ghost trace: Trace)
    ensures Sweeps(call) && Understood(true, sent, form) == Plain(text) ==>
              report.Ok? && Ran(PlanIn(call.env), call.env, ReadFrom(text, form), report.value, trace)
    ensures report.Ok? && call.apply && !call.env.ready && Understood(true, sent, form) == Plain(text) ==>
              report.value == MissingAuthority()
  {
    report, trace := Err("NOT_RUN"), NOTHING_DONE;
    if !call.overlap {
      report, trace := RunChild(call.apply, sent, call.env, form, text);
    }
  }

  /** One call: the child runs with the saved cursor, and the runner deals with what comes of it. */
  method Serve(runner: RetentionRunner, call: Call, form: Form, ghost h: History) returns (ghost entry: Option<Entry>)
    requires Exact(form) && TellsTruth(call, form) && Follows(runner.cursorFile, h, form)
    modifies runner
    ensures Adds(call, h, entry)
    ensures Follows(runner.cursorFile, Extended(h, entry), form)
    ensures entry.None? || !entry.value.saved ==> runner.cursorFile == old(runner.cursorFile)
  {
    ghost var before := runner.cursorFile;
    SavedCursorUnderstood(runner.cursorFile, h, form);
    ReadsBack(h, form);
    var cursor := if call.apply && runner.cursorFile.Saved? then Some(runner.cursorFile.cursor) else None;
    var report: Result<Report>;
    ghost var trace;
    report, trace := Answered(call, cursor, form, Printed(CursorAfter(h), form.text));
    var answer := if report.Ok? then call.tell(report.value) else Invocation.Failed(report.code);
    var saved := Hand(runner, call, answer, form);
    entry := None;
    if Sweeps(call) {
      entry := Some(Entry(trace.sweep, saved));
      SweepAdds(call, h, report.value, trace, saved, before, runner.cursorFile, form);
    } else if saved {
      MissingIsRefused(call, form);
    }
  }

  /** The cursor that is printed is read back as it was. */
  lemma ReadsBack(h: History, form: Form)
    requires Exact(form)
    ensures ReadFrom(Printed(CursorAfter(h), form.text), form) == CursorAfter(h)
  {
  }

  /** The sweeps that have come to their end, and the runs of the one that goes on. */
  datatype Sweeping = Sweeping(done: seq<History>, h: History)

  /** A run that comes to the end and is saved ends its sweep. */
  function Continued(s: Sweeping, entry: Option<Entry>): Sweeping {
    var h := Extended(s.h, entry);
    if entry.Some? && entry.value.saved && entry.value.sweep.Then? && Reached(entry.value.sweep).None?
    then Sweeping(s.done + [h], Fresh)
    else s.(h := h)
  }

  function After(entries: seq<Option<Entry>>): Sweeping {
    if entries == [] then Sweeping([], Fresh) else Continued(After(entries[..|entries| - 1]), entries[|entries| - 1])
  }

  /** Runs from the saved cursor to the end of the inventory. */
  predicate Complete(h: History) {
    && h.Later? && Resumed(h) && Unfinished(h.earlier)
    && h.saved && h.sweep.Then? && Reached(h.sweep).None?
  }

  ghost predicate InOrder(s: Sweeping) {
    Resumed(s.h) && Unfinished(s.h) && forall i | 0 <= i < |s.done| :: Complete(s.done[i])
  }

  lemma KeptInOrder(s: Sweeping, call: Call, entry: Option<Entry>)
    requires InOrder(s) && Adds(call, s.h, entry)
    ensures InOrder(Continued(s, entry))
  {
  }

  lemma EndIsFresh(s: Sweeping, entry: Option<Entry>, file: CursorFile, form: Form)
    requires Follows(file, Extended(s.h, entry), form)
    ensures Follows(file, Continued(s, entry).h, form)
  {
  }

  /** Each entry is what its call has added to the sweep that went on at the time. */
  ghost predicate Matches(calls: seq<Call>, entries: seq<Option<Entry>>) {
    |entries| == |calls| && forall i | 0 <= i < |calls| :: Adds(calls[i], After(entries[..i]).h, entries[i])
  }

  lemma OneMoreEntry(calls: seq<Call>, i: nat, entries: seq<Option<Entry>>, entry: Option<Entry>)
    requires i < |calls| && Matches(calls[..i], entries) && Adds(calls[i], After(entries).h, entry)
    ensures Matches(calls[..i + 1], entries + [entry])
    ensures After(entries + [entry]) == Continued(After(entries), entry)
  {
    var longer := entries + [entry];
    assert longer[..|longer| - 1] == entries;
    forall k | 0 <= k < i + 1
      ensures Adds(calls[..i + 1][k], After(longer[..k]).h, longer[k])
    {
      EntriesBefore(entries, entry, k);
      if k < i {
        assert calls[..i][k] == calls[k];
      }
    }
  }

  lemma EntriesBefore(entries: seq<Option<Entry>>, entry: Option<Entry>, k: nat)
    requires k <= |entries|
    ensures (entries + [entry])[..k] == entries[..k] && (k == |entries| ==> entries[..k] == entries)
    ensures (entries + [entry])[k] == if k < |entries| then entries[k] else entry
  {
  }

  /**
   * The runner called again and again, from an empty state directory on: whatever happens in the calls,
   * the file always holds the cursor that the saved runs have reached, every run goes on from it, and the
   * runs are sweeps one after the other, all complete but the last.
   */
  method ServeAll(runner: RetentionRunner, calls: seq<Call>, form: Form) returns (ghost entries: seq<Option<Entry>>)
    requires runner.cursorFile.Absent? && Exact(form) && forall call | call in calls :: TellsTruth(call, form)
    modifies runner
    ensures Matches(calls, entries) && InOrder(After(entries))
    ensures Follows(runner.cursorFile, After(entries).h, form)
  {
    entries := [];
    for i := 0 to |calls|
      invariant Matches(calls[..i], entries) && InOrder(After(entries))
      invariant Follows(runner.cursorFile, After(entries).h, form)
    {
      ghost var s := After(entries);
      ghost var entry := Serve(runner, calls[i], form, s.h);
      OneMoreEntry(calls, i, entries, entry);
      KeptInOrder(s, calls[i], entry);
      EndIsFresh(s, entry, runner.cursorFile, form);
      entries := entries + [entry];
    }
    TakenWhole(calls);
  }

  /** The tables that a call reads are in the order of their keys. */
  ghost predicate OrderedTables(call: Call) {
    forall k :: Ordered(call.env.inventory.table(k))
  }

  lemma {:induction false} AskedOrdered(call: Call, p: Plan, sweep: Sweep)
    requires OrderedTables(call) && Asked(call.env.inventory, p, sweep)
    ensures TablesOrdered(sweep)
  {
    if sweep.Then? {
      AskedOrdered(call, p, sweep.init);
    }
  }

  ghost predicate AllOrdered(s: Sweeping) {
    Tables(s.h) && forall i | 0 <= i < |s.done| :: Tables(s.done[i])
  }

  lemma {:induction false} TablesInOrder(calls: seq<Call>, entries: seq<Option<Entry>>)
    requires Matches(calls, entries) && forall call | call in calls :: OrderedTables(call)
    ensures AllOrdered(After(entries))
  {
    if entries != [] {
      var n := |entries| - 1;
      MatchesBefore(calls, entries);
      TablesInOrder(calls[..n], entries[..n]);
      if entries[n].Some? {
        AskedOrdered(calls[n], PlanIn(calls[n].env), entries[n].value.sweep);
      }
    }
  }

  lemma MatchesBefore(calls: seq<Call>, entries: seq<Option<Entry>>)
    requires Matches(calls, entries) && entries != []
    ensures Matches(calls[..|entries| - 1], entries[..|entries| - 1])
    ensures Adds(calls[|entries| - 1], After(entries[..|entries| - 1]).h, entries[|entries| - 1])
  {
    var n := |entries| - 1;
    forall i | 0 <= i < n
      ensures Adds(calls[..n][i], After(entries[..n][..i]).h, entries[..n][i])
    {
      assert entries[..n][..i] == entries[..i];
    }
  }

  /**
   * Over all calls of the runner no row is skipped: one that stays through a sweep that has come to its
   * end has been scanned in it, and one that stays through the sweep that goes on has been scanned or is
   * still ahead of the cursor in the file.
   */
  lemma ServiceSkipsNothing(calls: seq<Call>, entries: seq<Option<Entry>>, row: Row)
    requires Matches(calls, entries) && InOrder(After(entries)) && forall call | call in calls :: OrderedTables(call)
    ensures var s := After(entries);
            && (StaysThroughout(s.h, row) ==> ScannedIn(s.h, row) || Beyond(row, CursorAfter(s.h)))
            && forall i | 0 <= i < |s.done| && StaysThroughout(s.done[i], row) :: ScannedIn(s.done[i], row)
  {
    var s := After(entries);
    TablesInOrder(calls, entries);
    if StaysThroughout(s.h, row) {
      NothingSkipped(s.h, row);
    }
    forall i | 0 <= i < |s.done| && StaysThroughout(s.done[i], row)
      ensures ScannedIn(s.done[i], row)
    {
      FinishedSweepScansAll(s.done[i].earlier, s.done[i].sweep, row);
    }
  }

  /** A sweep whose runs were all saved scans a row that stays exactly once, or not, just as its reads decide. */
  lemma ServiceScansExactlyOnce(calls: seq<Call>, entries: seq<Option<Entry>>, i: nat, row: Row)
    requires Matches(calls, entries) && InOrder(After(entries)) && forall call | call in calls :: OrderedTables(call)
    requires i < |After(entries).done| && AllSaved(After(entries).done[i]) && StaysThroughout(After(entries).done[i], row)
    ensures var sweep := Joined(After(entries).done[i]);
            ExactlyOnce(Scanned(sweep), row) <==> NeverBetween(sweep, row)
  {
    TablesInOrder(calls, entries);
    var d := After(entries).done[i];
    RunsScanExactlyOnce(d.earlier, d.sweep, row);
  }
}
