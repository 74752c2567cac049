/** The cursor on its way through the command line. */
module RetentionArgs {
  import opened Prelude
  import opened RetentionLimits

  datatype CursorText = CursorText(completedAt: string, runId: string)

  const APPLY := "apply"
  const INSPECT := "inspect"
  const CONFIRM := "confirm"
  const CONFIRM_VALUE := "ISOLATED_MONITOR_PILOT_RETENTION"
  const CURSOR_AT := "cursor-completed-at"
  const CURSOR_ID := "cursor-run-id"
  const LIMIT_FLAGS := ["max-backfill", "max-reconcile", "max-inventory", "max-prune", "max-receipt-retire",
                        "max-terminal-retire", "deadline-ms"]
  const FLAG_INVALID := "MONITOR_PILOT_RETENTION_FLAG_INVALID"

  function Flag(name: string, value: string): string {
    "--" + name + "=" + value
  }

  /** The arguments after the script path in `build_cli_command`. */
  function Command(apply: bool, cursor: Option<CursorText>): seq<string> {
    if !apply then [INSPECT]
    else
      [APPLY, Flag(CONFIRM, CONFIRM_VALUE)] +
      if cursor.None? then []
      else [Flag(CURSOR_AT, cursor.value.completedAt), Flag(CURSOR_ID, cursor.value.runId)]
  }

  predicate IsFlagChar(c: char) {
    'a' <= c <= 'z' || '0' <= c <= '9' || c == '-'
  }

  /** The characters that `.` does not match. */
  predicate IsLineTerminator(c: char) {
    c == '\n' || c == '\r' || c == '\U{2028}' || c == '\U{2029}'
  }

  predicate NoLineTerminator(s: string) {
    forall i | 0 <= i < |s| :: !IsLineTerminator(s[i])
  }

  /** The length of the longest flag name at the start of the text. */
  function NameLength(s: string): (n: nat)
    ensures n <= |s| && (n < |s| ==> !IsFlagChar(s[n]))
    ensures forall i | 0 <= i < n :: IsFlagChar(s[i])
  {
    if s == [] || !IsFlagChar(s[0]) then 0 else 1 + NameLength(s[1..])
  }

  /** `/^--([a-z0-9-]+)=(.*)$/`; the name cannot reach beyond the first `=`. */
  function SplitFlag(arg: string): Option<(string, string)> {
    if |arg| < 2 || arg[0] != '-' || arg[1] != '-' then None
    else
      var rest := arg[2..];
      var n := NameLength(rest);
      if n == 0 || n == |rest| || rest[n] != '=' || !NoLineTerminator(rest[n + 1..]) then None
      else Some((rest[..n], rest[n + 1..]))
  }

  /** The flags of an argument list; a flag must not come twice. */
  function Flags(args: seq<string>): Result<map<string, string>> {
    if args == [] then Ok(map[])
    else
      var earlier := Flags(args[..|args| - 1]);
      var flag := SplitFlag(args[|args| - 1]);
      if earlier.Err? then earlier
      else if flag.None? then Err(FLAG_INVALID)
      else if flag.value.0 in earlier.value then Err("MONITOR_PILOT_RETENTION_FLAG_DUPLICATE")
      else Ok(earlier.value[flag.value.0 := flag.value.1])
  }

  predicate IsRunIdChar(c: char) {
    '0' <= c <= '9' || 'a' <= c <= 'f' || 'A' <= c <= 'F' || c == '-'
  }

  predicate RunIdShape(s: string) {
    |s| == 36 && forall i | 0 <= i < 36 :: IsRunIdChar(s[i])
  }

  predicate IsKnown(name: string) {
    name == CONFIRM || name == CURSOR_AT || name == CURSOR_ID || name in LIMIT_FLAGS
  }

  datatype Parsed = Parsed(apply: bool, confirm: bool, cursor: Option<CursorText>, limits: RawLimits)

  /** The cursor part; `isDate` says which texts a date can be made of. Empty texts count as absent. */
  function CursorOf(flags: map<string, string>, isDate: string -> bool): Result<Option<CursorText>> {
    if (CURSOR_AT in flags) != (CURSOR_ID in flags) then Err("MONITOR_PILOT_RETENTION_CURSOR_INVALID")
    else if CURSOR_AT !in flags || flags[CURSOR_AT] == "" || flags[CURSOR_ID] == "" then Ok(None)
    else if !isDate(flags[CURSOR_AT]) || !RunIdShape(flags[CURSOR_ID]) then Err("MONITOR_PILOT_RETENTION_CURSOR_INVALID")
    else Ok(Some(CursorText(flags[CURSOR_AT], flags[CURSOR_ID])))
  }

  predicate AllDigits(s: string) {
    s != "" && forall i | 0 <= i < |s| :: IsDigit(s[i])
  }

  /** The number that a text of digits stands for. */
  function Decimal(s: string): nat
    requires forall i | 0 <= i < |s| :: IsDigit(s[i])
  {
    if s == "" then 0
    else
      var last := s[|s| - 1];
      assert IsDigit(last);
      10 * Decimal(s[..|s| - 1]) + (last as int - '0' as int)
  }

  /** `parseIntegerFlag` */
  function SettingOf(flags: map<string, string>, name: string): Result<Setting> {
    if name !in flags then Ok(Default)
    else if AllDigits(flags[name]) then Ok(Integer(Decimal(flags[name])))
    else Err(FLAG_INVALID)
  }

  function LimitsOf(flags: map<string, string>): Result<RawLimits> {
    if exists k | 0 <= k < |LIMIT_FLAGS| :: SettingOf(flags, LIMIT_FLAGS[k]).Err? then Err(FLAG_INVALID)
    else
      Ok(RawLimits(SettingOf(flags, LIMIT_FLAGS[0]).value, SettingOf(flags, LIMIT_FLAGS[1]).value,
                   SettingOf(flags, LIMIT_FLAGS[2]).value, SettingOf(flags, LIMIT_FLAGS[3]).value,
                   SettingOf(flags, LIMIT_FLAGS[4]).value, SettingOf(flags, LIMIT_FLAGS[5]).value,
                   SettingOf(flags, LIMIT_FLAGS[6]).value))
  }

  /** The loop over the limit flags. */
  method ReadLimits(flags: map<string, string>) returns (r: Result<RawLimits>)
    ensures r == LimitsOf(flags)
  {
    var settings: seq<Setting> := [];
    for i := 0 to |LIMIT_FLAGS|
      invariant |settings| == i && forall k | 0 <= k < i :: SettingOf(flags, LIMIT_FLAGS[k]) == Ok(settings[k])
    {
      var setting := SettingOf(flags, LIMIT_FLAGS[i]);
      if setting.Err? {
        return Err(FLAG_INVALID);
      }
      settings := settings + [setting.value];
    }
    return Ok(RawLimits(settings[0], settings[1], settings[2], settings[3], settings[4], settings[5], settings[6]));
  }

  /** The loop over the arguments. */
  method ReadFlags(args: seq<string>) returns (r: Result<map<string, string>>)
    ensures r == Flags(args)
  {
    var flags: map<string, string> := map[];
    for i := 0 to |args|
      invariant Flags(args[..i]) == Ok(flags)
    {
      FlagsOneMore(args, i);
      var flag := SplitFlag(args[i]);
      if flag.None? {
        ErrorStays(args, i + 1);
        return Err(FLAG_INVALID);
      }
      if flag.value.0 in flags {
        ErrorStays(args, i + 1);
        return Err("MONITOR_PILOT_RETENTION_FLAG_DUPLICATE");
      }
      flags := flags[flag.value.0 := flag.value.1];
    }
    TakenWhole(args);
    return Ok(flags);
  }

  lemma TakenWhole<T>(s: seq<T>)
    ensures s[..|s|] == s
  {
  }

  lemma FlagsOneMore(args: seq<string>, i: nat)
    requires i < |args| && Flags(args[..i]).Ok?
    ensures var flags, flag := Flags(args[..i]).value, SplitFlag(args[i]);
            Flags(args[..i + 1]) ==
            if flag.None? then Err(FLAG_INVALID)
            else if flag.value.0 in flags then Err("MONITOR_PILOT_RETENTION_FLAG_DUPLICATE")
            else Ok(flags[flag.value.0 := flag.value.1])
  {
    assert args[..i + 1][..i] == args[..i];
  }

  /** `parseMonitorPilotRetentionArgs` */
  method ParseArgs(args: seq<string>, isDate: string -> bool) returns (r: Result<Parsed>)
    ensures args == [] || (args[0] != INSPECT && args[0] != APPLY) ==> r == Err("MONITOR_PILOT_RETENTION_COMMAND_REQUIRED")
    ensures args != [] && args[0] in [INSPECT, APPLY] ==> r == Meaning(args[0] == APPLY, Flags(args[1..]), isDate)
  {
    if args == [] || (args[0] != INSPECT && args[0] != APPLY) {
      return Err("MONITOR_PILOT_RETENTION_COMMAND_REQUIRED");
    }
    var read := ReadFlags(args[1..]);
    if read.Err? {
      return Err(read.code);
    }
    var flags := read.value;
    if exists name | name in flags :: !IsKnown(name) {
      return Err(FLAG_INVALID);
    }
    var cursor := CursorOf(flags, isDate);
    if cursor.Err? {
      return Err(cursor.code);
    }
    var raw := ReadLimits(flags);
    if raw.Err? {
      return Err(raw.code);
    }
    var limits := ResolveLimits(raw.value);
    if limits.Err? {
      return Err(limits.code);
    }
    var apply := args[0] == APPLY;
    return Ok(Parsed(apply, !apply || (CONFIRM in flags && flags[CONFIRM] == CONFIRM_VALUE), cursor.value, raw.value));
  }

  /** What a list of flags means for a mode. */
  function Meaning(apply: bool, flags: Result<map<string, string>>, isDate: string -> bool): Result<Parsed> {
    if flags.Err? then Err(flags.code)
    else if exists name | name in flags.value :: !IsKnown(name) then Err(FLAG_INVALID)
    else
      var cursor := CursorOf(flags.value, isDate);
      var raw := LimitsOf(flags.value);
      if cursor.Err? then Err(cursor.code)
      else if raw.Err? then Err(raw.code)
      else if !LimitsInRange(raw.value) then Err(LIMIT_INVALID)
      else if !DeadlineInRange(raw.value) then Err(DEADLINE_INVALID)
      else
        Ok(Parsed(apply, !apply || (CONFIRM in flags.value && flags.value[CONFIRM] == CONFIRM_VALUE),
                  cursor.value, raw.value))
  }

  lemma {:induction false} ErrorStays(args: seq<string>, n: nat)
    requires n <= |args| && Flags(args[..n]).Err?
    ensures Flags(args) == Flags(args[..n])
    decreases |args|
  {
    if n == |args| {
      assert args[..n] == args;
    } else {
      var init := args[..|args| - 1];
      assert init[..n] == args[..n];
      ErrorStays(init, n);
    }
  }

  lemma {:induction false} NameEnds(name: string, rest: string)
    requires forall i | 0 <= i < |name| :: IsFlagChar(name[i])
    requires rest != [] && !IsFlagChar(rest[0])
    ensures NameLength(name + rest) == |name|
  {
    if name == [] {
      assert name + rest == rest;
    } else {
      assert (name + rest)[1..] == name[1..] + rest;
      NameEnds(name[1..], rest);
    }
  }

  /** A flag is read back as it was written, exactly when its value is one line. */
  lemma FlagRoundTrip(name: string, value: string)
    requires name != [] && forall i | 0 <= i < |name| :: IsFlagChar(name[i])
    ensures SplitFlag(Flag(name, value)) == if NoLineTerminator(value) then Some((name, value)) else None
  {
    var rest := Flag(name, value)[2..];
    assert rest == name + (['='] + value);
    NameEnds(name, ['='] + value);
    assert rest[..|name|] == name && rest[|name|] == '=' && rest[|name| + 1..] == value;
  }

  /** Three flags with different names. */
  lemma ThreeFlags(a: string, b: string, c: string, name1: string, name2: string, name3: string,
                   v1: string, v2: string, v3: string)
    requires SplitFlag(a) == Some((name1, v1)) && name1 != name2 && name1 != name3 && name2 != name3
    requires SplitFlag(b) == if NoLineTerminator(v2) then Some((name2, v2)) else None
    requires SplitFlag(c) == if NoLineTerminator(v3) then Some((name3, v3)) else None
    ensures Flags([a, b, c]) ==
            if NoLineTerminator(v2) && NoLineTerminator(v3) then Ok(map[name1 := v1, name2 := v2, name3 := v3])
            else Err(FLAG_INVALID)
  {
    var none: seq<string> := [];
    assert [a][..0] == none && [a, b][..1] == [a] && [a, b, c][..2] == [a, b];
    assert Flags([a]) == Ok(map[name1 := v1]);
  }

  lemma NamesAreFlagNames()
    ensures forall i | 0 <= i < |CONFIRM| :: IsFlagChar(CONFIRM[i])
    ensures forall i | 0 <= i < |CURSOR_AT| :: IsFlagChar(CURSOR_AT[i])
    ensures forall i | 0 <= i < |CURSOR_ID| :: IsFlagChar(CURSOR_ID[i])
    ensures |CONFIRM| == 7 && |CURSOR_AT| == 19 && |CURSOR_ID| == 13
    ensures NoLineTerminator(CONFIRM_VALUE)
  {
  }

  const NO_LIMITS := RawLimits(Default, Default, Default, Default, Default, Default, Default)

  /** Three known names carry only what was put in. */
  lemma MeaningOfThree(at: string, id: string, isDate: string -> bool)
    ensures var flags := map[CONFIRM := CONFIRM_VALUE, CURSOR_AT := at, CURSOR_ID := id];
            Meaning(true, Ok(flags), isDate) ==
            if at == "" || id == "" then Ok(Parsed(true, true, None, NO_LIMITS))
            else if isDate(at) && RunIdShape(id) then Ok(Parsed(true, true, Some(CursorText(at, id)), NO_LIMITS))
            else Err("MONITOR_PILOT_RETENTION_CURSOR_INVALID")
  {
    NamesAreFlagNames();
  }

  /**
   * What a run gets for the cursor in the state file, for any two texts: the same cursor for a date and
   * a run id, an error for other texts, and silently no cursor when one of the texts is empty.
   */
  lemma CursorArrives(cursor: CursorText, isDate: string -> bool)
    ensures var at, id := cursor.completedAt, cursor.runId;
            var parsed := Meaning(true, Flags(Command(true, Some(cursor))[1..]), isDate);
            if !NoLineTerminator(at) || !NoLineTerminator(id) then parsed == Err(FLAG_INVALID)
            else if at == "" || id == "" then parsed == Ok(Parsed(true, true, None, NO_LIMITS))
            else if isDate(at) && RunIdShape(id) then parsed == Ok(Parsed(true, true, Some(cursor), NO_LIMITS))
            else parsed == Err("MONITOR_PILOT_RETENTION_CURSOR_INVALID")
  {
    var at, id := cursor.completedAt, cursor.runId;
    NamesAreFlagNames();
    var args := [Flag(CONFIRM, CONFIRM_VALUE), Flag(CURSOR_AT, at), Flag(CURSOR_ID, id)];
    assert Command(true, Some(cursor))[1..] == args;
    FlagRoundTrip(CONFIRM, CONFIRM_VALUE);
    FlagRoundTrip(CURSOR_AT, at);
    FlagRoundTrip(CURSOR_ID, id);
    ThreeFlags(args[0], args[1], args[2], CONFIRM, CURSOR_AT, CURSOR_ID, CONFIRM_VALUE, at, id);
    MeaningOfThree(at, id, isDate);
  }
}
