/** The runner of the maintenance and its state files. */
module RetentionRunner {
  import opened Prelude
  import opened RetentionArgs
  import opened RetentionPages
  import opened RetentionRun
  import opened RetentionScan

  /** `cursor.json`: a state with two texts, or anything else. */
  datatype CursorFile = Absent | Saved(cursor: CursorText) | Unusable

  /** What the child prints, as far as the runner looks at it; the kind is absent if it is none of the known ones. */
  datatype ChildReport = ChildReport(
    kind: Option<Kind>, startedAt: string, finishedAt: string, pendingBefore: Option<map<string, int>>,
    pendingAfter: Option<map<string, int>>, actions: map<string, int>, scanned: int, reasons: map<string, int>,
    blocked: map<string, int>, nextCursor: Option<CursorText>)

  /** No usable result, or a result with the exit code of the child. */
  datatype Invocation = Failed(code: string) | Answered(exitCode: int, report: ChildReport)

  const MAX_SAFE_COUNT := 0x1F_FFFF_FFFF_FFFF
  const UNSAFE := "RETENTION_RESULT_UNSAFE_FIELDS"

  predicate DigitsAt(s: string, from: nat, to: nat)
    requires from <= to <= |s|
  {
    forall i | from <= i < to :: IsDigit(s[i])
  }

  /** `SAFE_TIMESTAMP`; `isTime` stands for `datetime.strptime`. */
  predicate SafeTimestamp(s: string, isTime: string -> bool) {
    && |s| == 24 && DigitsAt(s, 0, 4) && s[4] == '-' && DigitsAt(s, 5, 7) && s[7] == '-' && DigitsAt(s, 8, 10)
    && s[10] == 'T' && DigitsAt(s, 11, 13) && s[13] == ':' && DigitsAt(s, 14, 16) && s[16] == ':'
    && DigitsAt(s, 17, 19) && s[19] == '.' && DigitsAt(s, 20, 23) && s[23] == 'Z' && isTime(s)
  }

  predicate IsHexDigit(c: char) {
    '0' <= c <= '9' || 'a' <= c <= 'f' || 'A' <= c <= 'F'
  }

  /** `SAFE_RUN_ID` */
  predicate SafeRunId(s: string) {
    |s| == 36 && forall i | 0 <= i < 36 :: if i == 8 || i == 13 || i == 18 || i == 23 then s[i] == '-' else IsHexDigit(s[i])
  }

  predicate SafeCounts(counts: map<string, int>, allowed: set<string>) {
    |counts| <= 128 && forall key | key in counts :: key in allowed && 0 <= counts[key] <= MAX_SAFE_COUNT
  }

  /** The names that a report may use. */
  datatype Vocabulary = Vocabulary(reasons: set<string>, blocked: set<string>, pending: set<string>, actions: set<string>)

  predicate SafePending(counts: Option<map<string, int>>, words: Vocabulary) {
    counts.Some? ==> counts.value.Keys == words.pending && SafeCounts(counts.value, words.pending)
  }

  /** `_safe_snapshot` accepts the report. */
  predicate Safe(r: ChildReport, words: Vocabulary, isTime: string -> bool) {
    && r.kind.Some?
    && (r.nextCursor.Some? ==> SafeTimestamp(r.nextCursor.value.completedAt, isTime) && SafeRunId(r.nextCursor.value.runId))
    && SafeTimestamp(r.startedAt, isTime) && SafeTimestamp(r.finishedAt, isTime)
    && SafePending(r.pendingBefore, words) && SafePending(r.pendingAfter, words)
    && r.actions.Keys == words.actions && SafeCounts(r.actions, words.actions)
    && 0 <= r.scanned <= MAX_SAFE_COUNT
    && SafeCounts(r.reasons, words.reasons) && SafeCounts(r.blocked, words.blocked)
  }

  function ExpectedExit(kind: Kind): int {
    match kind
    case PARTIAL => 3
    case MISSING_AUTHORITY => 2
    case _ => 0
  }

  /** A result that the runner goes on with: the right kind for the mode, the matching exit code, safe fields. */
  predicate Acceptable(apply: bool, i: Invocation, words: Vocabulary, isTime: string -> bool) {
    && i.Answered? && i.report.kind.Some?
    && (if apply then i.report.kind.value in {APPLIED, PARTIAL} else i.report.kind.value.INSPECTED?)
    && i.exitCode == ExpectedExit(i.report.kind.value) && Safe(i.report, words, isTime)
  }

  /** `0` stands for a digit, `x` for a hexadecimal digit, any other character for itself. */
  predicate Stands(c: char, sign: char) {
    if sign == '0' then '0' <= c <= '9'
    else if sign == 'x' then '0' <= c <= '9' || 'a' <= c <= 'f' || 'A' <= c <= 'F'
    else c == sign
  }

  predicate HasForm(s: string, form: string) {
    |s| == |form| && forall i | 0 <= i < |form| :: Stands(s[i], form[i])
  }

  /** A time to the millisecond in UTC, and a UUID. */
  const TIME_FORM := "0000-00-00T00:00:00.000Z"
  const ID_FORM := "xxxxxxxx-xxxx-xxxx-xxxx-xxxxxxxxxxxx"

  lemma TimesHaveForm(s: string, isTime: string -> bool)
    ensures SafeTimestamp(s, isTime) <==> HasForm(s, TIME_FORM) && isTime(s)
  {
    if HasForm(s, TIME_FORM) {
      assert forall i | 0 <= i < 24 :: Stands(s[i], TIME_FORM[i]);
    }
  }

  lemma IdsHaveForm(s: string)
    ensures SafeRunId(s) <==> HasForm(s, ID_FORM)
  {
  }

  /** Counters of an accepted result: few, under known names, and exact as JSON numbers. */
  predicate SmallCounts(counts: map<string, int>, names: set<string>) {
    |counts| <= 128 && counts.Keys <= names && forall n | n in counts.Values :: 0 <= n <= 9007199254740991
  }

  lemma CountsAreSmall(counts: map<string, int>, names: set<string>)
    ensures SafeCounts(counts, names) <==> SmallCounts(counts, names)
  {
    forall key | key in counts
      ensures counts[key] in counts.Values
    {
    }
  }

  predicate FieldsFit(r: ChildReport, words: Vocabulary, isTime: string -> bool) {
    && HasForm(r.startedAt, TIME_FORM) && isTime(r.startedAt) && HasForm(r.finishedAt, TIME_FORM) && isTime(r.finishedAt)
    && (r.nextCursor.Some? ==>
          && HasForm(r.nextCursor.value.completedAt, TIME_FORM) && isTime(r.nextCursor.value.completedAt)
          && HasForm(r.nextCursor.value.runId, ID_FORM))
    && (r.pendingBefore.Some? ==>
          r.pendingBefore.value.Keys == words.pending && SmallCounts(r.pendingBefore.value, words.pending))
    && (r.pendingAfter.Some? ==>
          r.pendingAfter.value.Keys == words.pending && SmallCounts(r.pendingAfter.value, words.pending))
    && r.actions.Keys == words.actions && SmallCounts(r.actions, words.actions)
    && SmallCounts(r.reasons, words.reasons) && SmallCounts(r.blocked, words.blocked)
    && 0 <= r.scanned <= 9007199254740991
  }

  /** An application is accepted as applied with exit code 0 or partial with 3, an inspection with 0. */
  lemma AcceptedExactly(apply: bool, i: Invocation, words: Vocabulary, isTime: string -> bool)
    ensures Acceptable(apply, i, words, isTime) <==>
              && i.Answered?
              && (if apply then
                    || (i.report.kind == Some(APPLIED) && i.exitCode == 0)
                    || (i.report.kind == Some(PARTIAL) && i.exitCode == 3)
                  else i.report.kind == Some(INSPECTED) && i.exitCode == 0)
              && FieldsFit(i.report, words, isTime)
  {
    if i.Answered? {
      SafeExactly(i.report, words, isTime);
    }
  }

  lemma SafeExactly(r: ChildReport, words: Vocabulary, isTime: string -> bool)
    ensures Safe(r, words, isTime) <==> r.kind.Some? && FieldsFit(r, words, isTime)
  {
    TimesHaveForm(r.startedAt, isTime);
    TimesHaveForm(r.finishedAt, isTime);
    if r.nextCursor.Some? {
      TimesHaveForm(r.nextCursor.value.completedAt, isTime);
      IdsHaveForm(r.nextCursor.value.runId);
    }
    if r.pendingBefore.Some? {
      CountsAreSmall(r.pendingBefore.value, words.pending);
    }
    if r.pendingAfter.Some? {
      CountsAreSmall(r.pendingAfter.value, words.pending);
    }
    CountsAreSmall(r.actions, words.actions);
    CountsAreSmall(r.reasons, words.reasons);
    CountsAreSmall(r.blocked, words.blocked);
  }

  /** A cursor that the runner has saved is handed to the next run unchanged. */
  lemma SavedCursorArrives(r: ChildReport, words: Vocabulary, isTime: string -> bool, isDate: string -> bool)
    requires Safe(r, words, isTime) && r.nextCursor.Some? && isDate(r.nextCursor.value.completedAt)
    ensures var parsed := Meaning(true, Flags(Command(true, r.nextCursor)[1..]), isDate);
            parsed.Ok? && parsed.value.confirm && parsed.value.cursor == r.nextCursor
  {
    var cursor := r.nextCursor.value;
    SafeTextsAreOneLine(cursor, isTime);
    CursorArrives(cursor, isDate);
  }

  lemma SafeTextsAreOneLine(cursor: CursorText, isTime: string -> bool)
    requires SafeTimestamp(cursor.completedAt, isTime) && SafeRunId(cursor.runId)
    ensures NoLineTerminator(cursor.completedAt) && NoLineTerminator(cursor.runId) && RunIdShape(cursor.runId)
  {
    var s := cursor.completedAt;
    forall i | 0 <= i < |s|
      ensures !IsLineTerminator(s[i])
    {
      assert IsDigit(s[i]) || s[i] == '-' || s[i] == 'T' || s[i] == ':' || s[i] == '.' || s[i] == 'Z';
    }
  }

  /** The state file after an accepted run. */
  function FileAfter(kind: Kind, next: Option<CursorText>): CursorFile {
    if kind.PARTIAL? && next.Some? then Saved(next.value) else Absent
  }

  /** The texts of a cursor in the result; `text` stands for the ISO form of its time. */
  function Printed(cursor: Option<Cursor>, text: Cursor -> CursorText): Option<CursorText> {
    if cursor.None? then None else Some(text(cursor.value))
  }

  /**
   * After an application the state file holds the next cursor of the run, or is absent when there is
   * none: a cursor is never dropped, because a run that stops short is never reported as applied.
   */
  lemma FileHoldsNextCursor(p: Plan, env: Environment, r: Report, trace: Trace, text: Cursor -> CursorText)
    requires p.apply && ReportsKind(p, env, r, trace)
    ensures FileAfter(r.kind, Printed(r.nextCursor, text)) ==
            if r.nextCursor.Some? then Saved(text(r.nextCursor.value)) else Absent
  {
  }

  class RetentionRunner {
    var cursorFile: CursorFile
    var lastResult: Option<ChildReport>

    constructor ()
      ensures cursorFile.Absent? && lastResult.None?
    {
      cursorFile, lastResult := Absent, None;
    }

    /**
     * `run_once`; `overlap` says that another runner holds the lock, and `invoke` is the child for a
     * mode and a cursor. The result is the snapshot that is printed, or nothing after an overlap.
     */
    method RunOnce(apply: bool, overlap: bool, invoke: (bool, Option<CursorText>) -> Invocation,
                   words: Vocabulary, isTime: string -> bool) returns (r: Result<Option<ChildReport>>)
      modifies this
      ensures overlap ==> r == Ok(None)
      ensures overlap || !apply || r.Err? ==> cursorFile == old(cursorFile) && lastResult == old(lastResult)
      ensures apply && !overlap && old(cursorFile).Unusable? ==> r.Err?
      ensures !overlap && !(apply && old(cursorFile).Unusable?) ==>
                var cursor := if apply && old(cursorFile).Saved? then Some(old(cursorFile).cursor) else None;
                var answer := invoke(apply, cursor);
                && (r.Ok? <==> Acceptable(apply, answer, words, isTime))
                && (answer.Answered? && answer.report.kind == Some(MISSING_AUTHORITY) && answer.exitCode == 2 ==>
                      r == Err("RETENTION_AUTHORITY_MISSING"))
                && (r.Ok? ==> r.value == Some(answer.report))
                && (r.Ok? && apply ==>
                      && lastResult == r.value
                      && cursorFile == FileAfter(answer.report.kind.value, answer.report.nextCursor))
    {
      if overlap {
        return Ok(None);
      }
      var cursor: Option<CursorText> := None;
      if apply {
        if cursorFile.Unusable? {
          return Err("RETENTION_CURSOR_STATE_INVALID");
        }
        if cursorFile.Saved? {
          cursor := Some(cursorFile.cursor);
        }
      }
      var answer := invoke(apply, cursor);
      if answer.Failed? {
        return Err(answer.code);
      }
      var kind := answer.report.kind;
      if kind.None? || (if apply then kind.value.INSPECTED? else kind.value in {APPLIED, PARTIAL}) {
        return Err("RETENTION_RESULT_MODE_MISMATCH");
      }
      if answer.exitCode != ExpectedExit(kind.value) {
        return Err("RETENTION_CLI_EXIT_MISMATCH");
      }
      if kind.value.MISSING_AUTHORITY? {
        return Err("RETENTION_AUTHORITY_MISSING");
      }
      if !Safe(answer.report, words, isTime) {
        return Err(UNSAFE);
      }
      if apply {
        if kind.value.PARTIAL? && answer.report.nextCursor.Some? {
          cursorFile := Saved(answer.report.nextCursor.value);
        } else if !cursorFile.Absent? {
          cursorFile := Absent;
        }
        lastResult := Some(answer.report);
      }
      return Ok(Some(answer.report));
    }
  }
}
