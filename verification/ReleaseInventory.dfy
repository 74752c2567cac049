/** The checksum and symlink lists of a release: how they are written and how they are read back. */
module ReleaseInventory {
  import opened Prelude
  import opened PythonText
  import opened PosixPath

  /** A listed path with its digest or its link target. */
  datatype Entry = Entry(name: string, value: string)

  predicate IsDigest(s: string) {
    |s| == 64 && IsHex(s)
  }

  function ChecksumLine(e: Entry): string {
    e.value + "  " + e.name
  }

  function LinkLine(e: Entry): string {
    e.name + "\t" + e.value
  }

  function LinesOf(entries: seq<Entry>, line: Entry -> string): seq<string> {
    seq(|entries|, i requires 0 <= i < |entries| => line(entries[i]))
  }

  /** `inventory_metadata` writes one line for each file and one for each link. */
  function Written(entries: seq<Entry>, line: Entry -> string): string {
    JoinLines(LinesOf(entries, line))
  }

  /** `str.lstrip(" *")` */
  function LeadStrip(s: string): (r: string)
    ensures |r| <= |s| && (s != "" && (s[0] == ' ' || s[0] == '*') ==> |r| < |s|)
    ensures forall c :: c in r ==> c in s
  {
    if s != "" && (s[0] == ' ' || s[0] == '*') then LeadStrip(s[1..]) else s
  }

  /**
   * A line of the checksum list, `([0-9a-f]{64})\s+(.+)` with the name stripped and normalised. When
   * only white space follows the digest, the last character of it is the name.
   */
  function ParseChecksum(line: string): Result<Entry> {
    if |line| < 64 || !IsDigest(line[..64]) then Err("RELEASE_CHECKSUM_LIST_INVALID")
    else
      var rest := line[64..];
      var body := LeftStrip(rest);
      if body == rest || (body == "" && |rest| < 2) then Err("RELEASE_CHECKSUM_LIST_INVALID")
      else
        var name := SafeRelative(LeadStrip(if body == "" then rest[|rest| - 1..] else body));
        if name.Err? then Err(name.code) else Ok(Entry(name.value, line[..64]))
  }

  /** The text up to the first tab. */
  function ToTab(s: string): (n: nat)
    ensures n <= |s| && '\t' !in s[..n] && (n < |s| ==> s[n] == '\t')
  {
    if s == "" || s[0] == '\t' then 0
    else
      var n := 1 + ToTab(s[1..]);
      assert s[..n] == [s[0]] + s[1..][..n - 1];
      n
  }

  /** A line of the symlink list, split at its first tab. */
  function ParseLink(line: string): Result<Entry> {
    var n := ToTab(line);
    if n == |line| then Err("RELEASE_SYMLINK_LIST_INVALID")
    else
      var name := SafeRelative(line[..n]);
      if name.Err? then Err(name.code) else Ok(Entry(name.value, line[n + 1..]))
  }

  /** All lines but the empty ones; a name must not come twice. */
  function Collected(lines: seq<string>, parse: string -> Result<Entry>, duplicate: string): Result<map<string, string>> {
    if lines == [] then Ok(map[])
    else
      var earlier := Collected(lines[..|lines| - 1], parse, duplicate);
      var line := lines[|lines| - 1];
      if earlier.Err? || line == "" then earlier
      else
        var entry := parse(line);
        if entry.Err? then Err(entry.code)
        else if entry.value.name in earlier.value then Err(duplicate)
        else Ok(earlier.value[entry.value.name := entry.value.value])
  }

  /** The loop of `_checksums` and of `_symlink_inventory`. */
  method Collect(lines: seq<string>, parse: string -> Result<Entry>, duplicate: string) returns (r: Result<map<string, string>>)
    ensures r == Collected(lines, parse, duplicate)
  {
    var result: map<string, string> := map[];
    for i := 0 to |lines|
      invariant Collected(lines[..i], parse, duplicate) == Ok(result)
    {
      assert lines[..i + 1][..i] == lines[..i];
      if lines[i] == "" {
        continue;
      }
      var entry := parse(lines[i]);
      if entry.Err? {
        ErrorStays(lines, i + 1, parse, duplicate);
        return Err(entry.code);
      }
      if entry.value.name in result {
        ErrorStays(lines, i + 1, parse, duplicate);
        return Err(duplicate);
      }
      result := result[entry.value.name := entry.value.value];
    }
    assert lines[..|lines|] == lines;
    return Ok(result);
  }

  lemma {:induction false} ErrorStays(lines: seq<string>, n: nat, parse: string -> Result<Entry>, duplicate: string)
    requires n <= |lines| && Collected(lines[..n], parse, duplicate).Err?
    ensures Collected(lines, parse, duplicate) == Collected(lines[..n], parse, duplicate)
    decreases |lines|
  {
    if n == |lines| {
      assert lines[..n] == lines;
    } else {
      var init := lines[..|lines| - 1];
      assert init[..n] == lines[..n];
      ErrorStays(init, n, parse, duplicate);
    }
  }

  /** Everything collected comes from a line. */
  lemma {:induction false} CollectedComesFromLines(lines: seq<string>, parse: string -> Result<Entry>, duplicate: string, key: string)
    requires Collected(lines, parse, duplicate).Ok? && key in Collected(lines, parse, duplicate).value
    ensures exists i ::
              0 <= i < |lines| && lines[i] != "" && parse(lines[i]) == Ok(Entry(key, Collected(lines, parse, duplicate).value[key]))
  {
    var init, last := lines[..|lines| - 1], lines[|lines| - 1];
    var n := |init|;
    if last != "" && parse(last).value.name == key {
      assert lines[n] == last;
    } else {
      CollectedComesFromLines(init, parse, duplicate, key);
      var i :| 0 <= i < |init| && init[i] != "" && parse(init[i]) == Ok(Entry(key, Collected(init, parse, duplicate).value[key]));
      assert lines[i] == init[i];
    }
  }

  /** Every line is collected, and different lines give different names. */
  lemma {:induction false} LinesAreCollected(lines: seq<string>, parse: string -> Result<Entry>, duplicate: string, i: nat)
    requires Collected(lines, parse, duplicate).Ok? && i < |lines| && lines[i] != ""
    ensures parse(lines[i]).Ok?
    ensures parse(lines[i]).value.name in Collected(lines, parse, duplicate).value
    ensures Collected(lines, parse, duplicate).value[parse(lines[i]).value.name] == parse(lines[i]).value.value
    ensures forall j | 0 <= j < i && lines[j] != "" ::
              parse(lines[j]).Ok? && parse(lines[j]).value.name != parse(lines[i]).value.name
  {
    var init := lines[..|lines| - 1];
    if i < |init| {
      assert init[i] == lines[i];
      LinesAreCollected(init, parse, duplicate, i);
      forall j | 0 <= j < i && lines[j] != ""
        ensures parse(lines[j]).Ok? && parse(lines[j]).value.name != parse(lines[i]).value.name
      {
        assert init[j] == lines[j];
      }
    } else {
      forall j | 0 <= j < i && lines[j] != ""
        ensures parse(lines[j]).Ok? && parse(lines[j]).value.name != parse(lines[i]).value.name
      {
        assert init[j] == lines[j];
        LinesAreCollected(init, parse, duplicate, j);
      }
    }
  }
}
