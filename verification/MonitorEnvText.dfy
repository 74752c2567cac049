/**
 * The environment file of the monitor as text: how it is rendered, how its key names are read back, and
 * when the one undoes the other.
 */
module MonitorEnvText {
  import opened Prelude
  import opened PythonText

  const URL_KEY := "MONITOR_HEALTH_READ_DATABASE_URL"
  const ROLE_KEY := "MONITOR_HEALTH_READ_EXPECTED_ROLE"
  const MONITOR_KEYS := [URL_KEY, ROLE_KEY]
  const MONITOR_ROLE := "octoport_monitor_pilot"

  /** `[A-Za-z_][A-Za-z0-9_]*` */
  predicate IsIdentifier(name: string) {
    && name != ""
    && !('0' <= name[0] <= '9')
    && forall i | 0 <= i < |name| ::
         'A' <= name[i] <= 'Z' || 'a' <= name[i] <= 'z' || '0' <= name[i] <= '9' || name[i] == '_'
  }

  /** The position of the first equals sign, or the length if there is none. */
  function EqualsSign(line: string): (n: nat)
    ensures n <= |line|
  {
    if line == "" || line[0] == '=' then 0 else 1 + EqualsSign(line[1..])
  }

  /** The name that one line sets; none for a blank line or a comment. */
  function LineName(raw: string): Result<Option<string>> {
    var line := Strip(raw);
    if line == "" || line[0] == '#' then Ok(None)
    else if EqualsSign(line) == |line| then Err("MONITOR_ENV_FORMAT_INVALID")
    else
      var name := Strip(line[..EqualsSign(line)]);
      if IsIdentifier(name) then Ok(Some(name)) else Err("MONITOR_ENV_FORMAT_INVALID")
  }

  /** The names set by some lines, in order; a repeated name is an error. */
  function Names(lines: seq<string>): Result<seq<string>> {
    if lines == [] then Ok([])
    else
      var before, last := Names(lines[..|lines| - 1]), LineName(lines[|lines| - 1]);
      if before.Err? then before
      else if last.Err? then Err(last.code)
      else if last.value.None? then before
      else if last.value.value in before.value then Err("MONITOR_ENV_FORMAT_INVALID")
      else Ok(before.value + [last.value.value])
  }

  lemma NamesOneMore(lines: seq<string>, i: nat)
    requires i < |lines| && Names(lines[..i]).Ok?
    ensures var before, last := Names(lines[..i]).value, LineName(lines[i]);
            Names(lines[..i + 1]) ==
            if last.Err? then Err(last.code)
            else if last.value.None? then Ok(before)
            else if last.value.value in before then Err("MONITOR_ENV_FORMAT_INVALID")
            else Ok(before + [last.value.value])
  {
    assert lines[..i + 1][..i] == lines[..i];
  }

  /** `_env_key_names` */
  method EnvKeyNames(text: string) returns (result: Result<seq<string>>)
    ensures result == Names(SplitLines(text))
  {
    var lines := SplitLines(text);
    var names, seen: set<string> := [], {};
    for i := 0 to |lines|
      invariant Names(lines[..i]) == Ok(names)
      invariant forall n :: n in seen <==> n in names
    {
      NamesOneMore(lines, i);
      var name := LineName(lines[i]);
      if name.Err? || (name.value.Some? && name.value.value in seen) {
        NamesStayWrong(lines, i + 1);
        return Names(lines);
      }
      if name.value.Some? {
        seen := seen + {name.value.value};
        names := names + [name.value.value];
      }
    }
    assert lines[..|lines|] == lines;
    result := Ok(names);
  }

  /** A text that sets exactly the two keys, in order. */
  predicate SetsMonitorKeys(text: string) {
    Names(SplitLines(text)) == Ok(MONITOR_KEYS)
  }

  predicate IsLetter(c: char) {
    'A' <= c <= 'Z' || 'a' <= c <= 'z' || c == '_'
  }

  /** The name before the first equals sign of a line without the white space around it. */
  predicate SetsAt(line: string, k: nat, name: string) {
    && k < |line| && line[k] == '=' && (forall i | 0 <= i < k :: line[i] != '=') && name == Strip(line[..k])
    && |name| > 0 && IsLetter(name[0]) && forall i | 0 <= i < |name| :: IsLetter(name[i]) || '0' <= name[i] <= '9'
  }

  lemma {:induction false} FirstEqualsSign(line: string)
    ensures forall i | 0 <= i < EqualsSign(line) :: line[i] != '='
    ensures EqualsSign(line) < |line| ==> line[EqualsSign(line)] == '='
  {
    if line != "" && line[0] != '=' {
      FirstEqualsSign(line[1..]);
      assert forall i | 0 < i < |line| :: line[i] == line[1..][i - 1];
    }
  }

  /** A line sets nothing exactly if it is blank or a comment, and a name exactly if that stands before its first equals sign. */
  lemma LineSets(raw: string, name: string)
    ensures LineName(raw) == Ok(None) <==> Strip(raw) == "" || Strip(raw)[0] == '#'
    ensures LineName(raw) == Ok(Some(name)) <==>
              Strip(raw) != "" && Strip(raw)[0] != '#' && exists k: nat | k < |Strip(raw)| :: SetsAt(Strip(raw), k, name)
  {
    var line := Strip(raw);
    var n := EqualsSign(line);
    FirstEqualsSign(line);
    if n < |line| && name == Strip(line[..n]) && IsIdentifier(name) {
      assert SetsAt(line, n, name);
    }
    forall k: nat | k < |line| && SetsAt(line, k, name)
      ensures k == n
    {
    }
  }

  lemma {:induction false} NamesStayWrong(lines: seq<string>, i: nat)
    requires i <= |lines| && Names(lines[..i]).Err?
    ensures Names(lines).Err?
  {
    if i < |lines| {
      assert lines[..|lines| - 1][..i] == lines[..i];
      NamesStayWrong(lines[..|lines| - 1], i);
    } else {
      assert lines[..i] == lines;
    }
  }

  function Escape(value: string): string {
    if value == "" then ""
    else (if value[0] == '\\' || value[0] == '"' then ['\\', value[0]] else [value[0]]) + Escape(value[1..])
  }

  /** One `KEY="value"` line. */
  function Assignment(key: string, value: string): string {
    key + "=\"" + Escape(value) + "\""
  }

  datatype Payload = Payload(url: string, role: string)

  /** `render_monitor_env` after validation. */
  function Render(p: Payload): string {
    JoinLines([Assignment(URL_KEY, p.url), Assignment(ROLE_KEY, p.role)])
  }

  /** `_validate_payload`; whether the URL has the required parts is a parameter. */
  predicate Accepted(p: Payload, urlParts: bool) {
    && urlParts && p.role == MONITOR_ROLE
    && p.url != "" && Utf8Size(p.url) <= 16384
    && forall i | 0 <= i < |p.url| :: p.url[i] >= ' ' && p.url[i] != '\U{007F}'
  }

  /** The length of a text in UTF-8 (section 3 of RFC 3629). */
  function Utf8Size(text: string): nat {
    if text == "" then 0
    else
      (if text[0] < '\U{0080}' then 1 else if text[0] < '\U{0800}' then 2
       else if text[0] < '\U{10000}' then 3 else 4) + Utf8Size(text[1..])
  }

  /** A quoted value up to its closing quote, a backslash standing before the character meant, and what follows. */
  function ReadQuoted(text: string): Option<(string, string)> {
    if text == "" || (text[0] == '\\' && |text| == 1) then None
    else if text[0] == '"' then Some(("", text[1..]))
    else
      var step := if text[0] == '\\' then 2 else 1;
      var rest := ReadQuoted(text[step..]);
      if rest.None? then None else Some(([text[step - 1]] + rest.value.0, rest.value.1))
  }

  /** Whatever quotes and backslashes a value holds, it ends where its assignment does, and reads as it was. */
  lemma {:induction false} ValueRoundTrip(value: string, rest: string)
    ensures ReadQuoted(Escape(value) + "\"" + rest) == Some((value, rest))
  {
    var text := Escape(value) + "\"" + rest;
    if value == "" {
      assert text == "\"" + rest;
      assert text[1..] == rest;
    } else {
      var step := if value[0] == '\\' || value[0] == '"' then 2 else 1;
      ValueRoundTrip(value[1..], rest);
      assert text[step..] == Escape(value[1..]) + "\"" + rest;
      assert text[step - 1] == value[0];
      assert [value[0]] + value[1..] == value;
    }
  }

  /** What validation accepts: the monitor's role, and a URL of up to 16,384 bytes without control characters. */
  lemma AcceptedExactly(p: Payload, urlParts: bool)
    ensures Accepted(p, urlParts) <==>
              && urlParts && p.role == "octoport_monitor_pilot" && 1 <= Utf8Size(p.url) <= 16384
              && forall i | 0 <= i < |p.url| :: !('\U{0000}' <= p.url[i] <= '\U{001F}') && p.url[i] != '\U{007F}'
  {
  }

  /** One to four bytes for a character, the shorter ones for 7, 11 and 16 bits. */
  lemma CharacterSize(c: char)
    ensures Utf8Size([c]) == if c as int < 128 then 1 else if c as int < 2048 then 2 else if c as int < 65536 then 3 else 4
  {
    assert [c][1..] == "";
  }

  lemma {:induction false} EscapeKeepsLine(value: string)
    requires OneLine(value)
    ensures OneLine(Escape(value))
  {
    if value != "" {
      EscapeKeepsLine(value[1..]);
    }
  }

  lemma {:induction false} EqualsSignAfter(key: string, rest: string)
    requires forall i | 0 <= i < |key| :: key[i] != '='
    ensures EqualsSign(key + "=" + rest) == |key|
  {
    if key == "" {
    } else {
      assert (key + "=" + rest)[1..] == key[1..] + "=" + rest;
      EqualsSignAfter(key[1..], rest);
    }
  }

  lemma {:induction false} RightStripKeepsPrefix(head: string, rest: string)
    requires head != "" && !IsSpace(head[|head| - 1])
    ensures head <= RightStrip(head + rest)
  {
    if rest == "" {
      assert head + rest == head;
    } else if IsSpace(rest[|rest| - 1]) {
      assert (head + rest)[..|head + rest| - 1] == head + rest[..|rest| - 1];
      RightStripKeepsPrefix(head, rest[..|rest| - 1]);
    }
  }

  /** A line that starts with `KEY="` sets exactly that key, whatever follows. */
  lemma LineNameOfAssignment(key: string, rest: string)
    requires IsIdentifier(key)
    ensures LineName(key + "=\"" + rest) == Ok(Some(key))
  {
    var head := key + "=\"";
    RightStripKeepsPrefix(head, rest);
    var line := Strip(head + rest);
    assert line == RightStrip(head + rest);
    assert line == key + "=" + line[|key| + 1..];
    EqualsSignAfter(key, line[|key| + 1..]);
    assert line[..|key|] == key;
    assert Strip(key) == key;
  }

  lemma AssignmentName(key: string, value: string)
    requires IsIdentifier(key)
    ensures LineName(Assignment(key, value)) == Ok(Some(key))
  {
    assert Assignment(key, value) == key + "=\"" + (Escape(value) + "\"");
    LineNameOfAssignment(key, Escape(value) + "\"");
  }

  lemma AssignmentLine(key: string, value: string)
    requires IsIdentifier(key) && OneLine(value)
    ensures OneLine(Assignment(key, value))
  {
    EscapeKeepsLine(value);
  }

  lemma UrlKeyIsName()
    ensures IsIdentifier(URL_KEY)
  {
  }

  lemma RoleKeyIsName()
    ensures IsIdentifier(ROLE_KEY)
    ensures URL_KEY != ROLE_KEY
  {
    assert |URL_KEY| != |ROLE_KEY|;
  }

  lemma NamesAppend(lines: seq<string>, last: string)
    requires Names(lines).Ok?
    ensures LineName(last).Err? ==> Names(lines + [last]).Err?
    ensures LineName(last) == Ok(None) ==> Names(lines + [last]) == Names(lines)
    ensures LineName(last).Ok? && LineName(last).value.Some? ==>
              var k := LineName(last).value.value;
              Names(lines + [last])
              == if k in Names(lines).value then Err("MONITOR_ENV_FORMAT_INVALID") else Ok(Names(lines).value + [k])
  {
    assert (lines + [last])[..|lines|] == lines;
  }

  lemma NamesOfOne(first: string, k: string)
    requires LineName(first) == Ok(Some(k))
    ensures Names([first]) == Ok([k])
  {
    var none: seq<string> := [];
    assert [first][..0] == none;
    assert none + [k] == [k];
  }

  lemma NamesOfTwo(first: string, second: string, k: string, l: string)
    requires LineName(first) == Ok(Some(k)) && LineName(second) == Ok(Some(l)) && k != l
    ensures Names([first, second]) == Ok([k, l])
  {
    NamesOfOne(first, k);
    NamesAppend([first], second);
    assert [first] + [second] == [first, second];
    assert [k] + [l] == [k, l];
  }

  /** A payload whose values are single lines renders to a file that sets exactly the two keys. */
  lemma RenderSetsMonitorKeys(p: Payload)
    requires OneLine(p.url) && OneLine(p.role)
    ensures SetsMonitorKeys(Render(p))
  {
    var first, second := Assignment(URL_KEY, p.url), Assignment(ROLE_KEY, p.role);
    UrlKeyIsName();
    RoleKeyIsName();
    AssignmentLine(URL_KEY, p.url);
    AssignmentLine(ROLE_KEY, p.role);
    SplitInvertsJoin([first, second]);
    AssignmentName(URL_KEY, p.url);
    AssignmentName(ROLE_KEY, p.role);
    NamesOfTwo(first, second, URL_KEY, ROLE_KEY);
  }

  lemma JoinOfTwo(first: string, second: string)
    ensures JoinLines([first, second]) == first + "\n" + second + "\n"
  {
    assert [first, second][1..] == [second];
    var none: seq<string> := [];
    assert [second][1..] == none;
    assert JoinLines([second]) == second + "\n" + "";
    assert first + "\n" + (second + "\n" + "") == first + "\n" + second + "\n";
  }

  /** The lines that the quoted URL takes in the file. */
  function UrlLines(p: Payload): seq<string> {
    SplitLines(Escape(p.url) + "\"")
  }

  lemma RenderedLines(p: Payload)
    requires OneLine(p.role)
    ensures UrlLines(p) != []
    ensures SplitLines(Render(p)) == [URL_KEY + "=\"" + UrlLines(p)[0]] + UrlLines(p)[1..] + [Assignment(ROLE_KEY, p.role)]
  {
    var prefix, quoted, second := URL_KEY + "=\"", Escape(p.url) + "\"", Assignment(ROLE_KEY, p.role);
    RoleKeyIsName();
    UrlKeyIsName();
    AssignmentLine(ROLE_KEY, p.role);
    SplitLinesPrefixed(prefix, quoted);
    Grouped(prefix, Escape(p.url), "\"");
    JoinOfTwo(prefix + quoted, second);
    Grouped(prefix + quoted + "\n", second, "\n");
    SplitLinesJoined(prefix + quoted, second + "\n");
    SplitLinesHead(second, "");
    assert second + "\n" + "" == second + "\n";
  }

  /** Every line is blank or a comment. */
  predicate SetNothing(lines: seq<string>) {
    forall i | 0 <= i < |lines| :: LineName(lines[i]) == Ok(None)
  }

  /** Behind a line that sets `k` the names stay `k` alone exactly as long as the lines set nothing. */
  lemma {:induction false} NamesBehind(first: string, lines: seq<string>, k: string)
    requires LineName(first) == Ok(Some(k))
    ensures Names([first] + lines).Ok? ==> Names([first] + lines).value != []
    ensures Names([first] + lines) == Ok([k]) <==> SetNothing(lines)
  {
    if lines == [] {
      assert [first] + lines == [first];
      NamesOfOne(first, k);
    } else {
      var init, last := lines[..|lines| - 1], lines[|lines| - 1];
      NamesBehind(first, init, k);
      LastApart(first, lines);
      if Names([first] + init).Ok? {
        NamesAppend([first] + init, last);
      }
    }
  }

  lemma LastApart(first: string, lines: seq<string>)
    requires lines != []
    ensures ([first] + lines)[..|[first] + lines| - 1] == [first] + lines[..|lines| - 1]
    ensures ([first] + lines)[|[first] + lines| - 1] == lines[|lines| - 1]
    ensures [first] + lines == [first] + lines[..|lines| - 1] + [lines[|lines| - 1]]
    ensures SetNothing(lines) <==>
              SetNothing(lines[..|lines| - 1]) && LineName(lines[|lines| - 1]) == Ok(None)
  {
  }

  lemma NamesAround(first: string, lines: seq<string>, last: string, k: string, l: string)
    requires LineName(first) == Ok(Some(k)) && LineName(last) == Ok(Some(l)) && k != l
    ensures Names([first] + lines + [last]) == Ok([k, l]) <==> SetNothing(lines)
  {
    NamesBehind(first, lines, k);
    var before := [first] + lines;
    assert (before + [last])[..|before|] == before;
    if Names(before).Ok? {
      NamesAppend(before, last);
      PairIs(Names(before).value, k, l);
    }
  }

  lemma PairIs(names: seq<string>, k: string, l: string)
    ensures names + [l] == [k, l] <==> names == [k]
  {
    assert names + [l] == [k, l] ==> |names| == 1 && (names + [l])[0] == k;
    assert [k] + [l] == [k, l];
  }

  /**
   * What an accepted payload renders to reads back as the two keys exactly when every line of the quoted
   * URL behind the first one happens to be blank or a comment; so always when the URL is one line.
   */
  lemma ReadsBackExactly(p: Payload, urlParts: bool)
    requires Accepted(p, urlParts)
    ensures UrlLines(p) != []
    ensures SetsMonitorKeys(Render(p)) <==> SetNothing(UrlLines(p)[1..])
  {
    RoleIsPlain();
    PlainIsOneLine(p.role);
    ReadsBack(p);
  }

  lemma ReadsBack(p: Payload)
    requires OneLine(p.role)
    ensures UrlLines(p) != []
    ensures SetsMonitorKeys(Render(p)) <==> SetNothing(UrlLines(p)[1..])
  {
    RenderedLines(p);
    UrlKeyIsName();
    RoleKeyIsName();
    LineNameOfAssignment(URL_KEY, UrlLines(p)[0]);
    AssignmentName(ROLE_KEY, p.role);
    NamesAround(URL_KEY + "=\"" + UrlLines(p)[0], UrlLines(p)[1..], Assignment(ROLE_KEY, p.role), URL_KEY, ROLE_KEY);
  }

  const BROKEN_HEAD := "postgres://" + MONITOR_ROLE + "@h/" + MONITOR_ROLE + "?a="
  const BROKEN_TAIL := "\U{2028}b"

  predicate Plain(text: string) {
    forall i | 0 <= i < |text| :: '!' <= text[i] <= '~'
  }

  lemma PlainHead()
    ensures Plain(BROKEN_HEAD) && |BROKEN_HEAD| <= 100
  {
    assert Plain("postgres://") && Plain("@h/") && Plain("?a=");
    RoleIsPlain();
  }

  lemma RoleIsPlain()
    ensures Plain(MONITOR_ROLE) && |MONITOR_ROLE| == 22
  {
  }

  lemma PlainIsOneLine(text: string)
    requires Plain(text)
    ensures OneLine(text)
  {
  }

  /** An accepted URL, with a separator in its query, that does not read back. */
  lemma AcceptedUrlCanBreak()
    ensures var p := Payload(BROKEN_HEAD + BROKEN_TAIL, MONITOR_ROLE); Accepted(p, true) && !SetsMonitorKeys(Render(p))
  {
    var p := Payload(BROKEN_HEAD + BROKEN_TAIL, MONITOR_ROLE);
    PlainHead();
    PlainIsOneLine(BROKEN_HEAD);
    TailAccepted(p, BROKEN_HEAD);
    ReadsBackExactly(p, true);
    BrokenLines(BROKEN_HEAD);
  }

  lemma TailAccepted(p: Payload, head: string)
    requires p == Payload(head + BROKEN_TAIL, MONITOR_ROLE) && Plain(head) && |head| <= 100
    ensures Accepted(p, true)
  {
    Utf8SizeAtMost(p.url);
  }

  lemma BrokenLines(head: string)
    requires OneLine(head)
    ensures var lines := SplitLines(Escape(head + BROKEN_TAIL) + "\""); |lines| == 2 && !SetNothing(lines[1..])
  {
    EscapeAppend(head, BROKEN_TAIL);
    EscapeKeepsLine(head);
    EscapeOfTail();
    QuotedTail(Escape(head));
    SplitStep(Escape(head), "\U{2028}", "b\"");
    SplitOneLine("b\"");
    HeadAndRest(Escape(head), ["b\""], []);
    SetsNoName();
    assert !SetNothing(["b\""]) by {
      assert ["b\""][0] == "b\"";
    }
  }

  lemma QuotedTail(head: string)
    ensures head + BROKEN_TAIL + "\"" == head + "\U{2028}" + "b\""
  {
  }

  lemma {:induction false} EscapeAppend(head: string, tail: string)
    ensures Escape(head + tail) == Escape(head) + Escape(tail)
  {
    if head == "" {
      assert head + tail == tail;
    } else {
      assert (head + tail)[1..] == head[1..] + tail;
      EscapeAppend(head[1..], tail);
    }
  }

  lemma EscapeOfTail()
    ensures Escape(BROKEN_TAIL) == BROKEN_TAIL
  {
    assert BROKEN_TAIL[1..] == "b" && "b"[1..] == "";
    assert Escape("b") == ['b'] + "";
  }

  lemma SetsNoName()
    ensures LineName("b\"").Err?
  {
    assert Strip("b\"") == "b\"";
    assert "b\""[1..] == "\"" && "\""[1..] == "";
    assert EqualsSign("\"") == 1 && EqualsSign("b\"") == 2;
  }

  lemma {:induction false} Utf8SizeAppend(a: string, b: string)
    ensures Utf8Size(a + b) == Utf8Size(a) + Utf8Size(b)
  {
    if a == "" {
      assert a + b == b;
    } else {
      assert (a + b)[1..] == a[1..] + b;
      Utf8SizeAppend(a[1..], b);
    }
  }

  lemma {:induction false} Utf8SizeAtMost(text: string)
    ensures Utf8Size(text) <= 4 * |text|
  {
    if text != "" {
      Utf8SizeAtMost(text[1..]);
    }
  }

  lemma {:induction false} EscapedSize(value: string)
    ensures Utf8Size(Escape(value)) <= 2 * Utf8Size(value)
  {
    if value != "" {
      EscapedSize(value[1..]);
      var first := if value[0] == '\\' || value[0] == '"' then ['\\', value[0]] else [value[0]];
      Utf8SizeAppend(first, Escape(value[1..]));
      if |first| == 2 {
        assert first[1..] == [value[0]];
        assert [value[0]][1..] == "";
      } else {
        assert first[1..] == "";
      }
    }
  }

  lemma AssignmentSize(key: string, value: string)
    ensures Utf8Size(Assignment(key, value)) <= 4 * |key| + 12 + 2 * Utf8Size(value)
  {
    Utf8SizeAppend(key + "=\"" + Escape(value), "\"");
    Utf8SizeAppend(key + "=\"", Escape(value));
    Utf8SizeAtMost(key + "=\"");
    Utf8SizeAtMost("\"");
    EscapedSize(value);
  }

  /** What an accepted payload renders to is small enough to be read back. */
  lemma RenderFits(p: Payload)
    requires Utf8Size(p.url) <= 16384 && Utf8Size(p.role) <= 88
    ensures Utf8Size(Render(p)) <= 65536
  {
    var first, second := Assignment(URL_KEY, p.url), Assignment(ROLE_KEY, p.role);
    JoinOfTwo(first, second);
    Utf8SizeAppend(first + "\n" + second, "\n");
    Utf8SizeAppend(first + "\n", second);
    Utf8SizeAppend(first, "\n");
    Utf8SizeAtMost("\n");
    AssignmentSize(URL_KEY, p.url);
    AssignmentSize(ROLE_KEY, p.role);
  }
}
