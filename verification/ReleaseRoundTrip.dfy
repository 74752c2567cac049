/** Exactly which releases have lists that can be read back as they were written. */
module ReleaseRoundTrip {
  import opened Prelude
  import opened PythonText
  import opened PosixPath
  import opened ReleaseInventory

  const CHECKSUM_DUPLICATE := "RELEASE_CHECKSUM_DUPLICATE"
  const SYMLINK_DUPLICATE := "RELEASE_SYMLINK_DUPLICATE"

  /** The white space and the asterisks in front of a listed name are lost, except for a lone character. */
  predicate Listable(name: string) {
    name != "" &&
    ((!IsSpace(name[0]) && name[0] != '*') || (|name| == 1 && IsSpace(name[0]) && name[0] != ' '))
  }

  ghost predicate Distinct(entries: seq<Entry>) {
    forall i, j | 0 <= i < j < |entries| :: entries[i].name != entries[j].name
  }

  function MapOf(entries: seq<Entry>): map<string, string> {
    if entries == [] then map[]
    else MapOf(entries[..|entries| - 1])[entries[|entries| - 1].name := entries[|entries| - 1].value]
  }

  lemma {:induction false} MapOfHas(entries: seq<Entry>, name: string)
    ensures name in MapOf(entries) <==> exists i :: 0 <= i < |entries| && entries[i].name == name
    ensures Distinct(entries) ==>
              forall i | 0 <= i < |entries| && entries[i].name == name :: name in MapOf(entries) && MapOf(entries)[name] == entries[i].value
  {
    if entries != [] {
      var init, n := entries[..|entries| - 1], |entries| - 1;
      MapOfHas(init, name);
      assert forall i | 0 <= i < n :: init[i] == entries[i];
      if entries[n].name != name && name in MapOf(init) {
        var i :| 0 <= i < |init| && init[i].name == name;
        assert entries[i].name == name;
      }
    }
  }

  /** Lines that are read back one by one give exactly the entries. */
  lemma {:induction false} EntriesCollected(lines: seq<string>, entries: seq<Entry>, parse: string -> Result<Entry>, duplicate: string)
    requires |lines| == |entries| && Distinct(entries)
    requires forall i | 0 <= i < |lines| :: lines[i] != "" && parse(lines[i]) == Ok(entries[i])
    ensures Collected(lines, parse, duplicate) == Ok(MapOf(entries))
  {
    if lines != [] {
      var n := |lines| - 1;
      var init, first := lines[..n], entries[..n];
      EntriesCollected(init, first, parse, duplicate);
      MapOfHas(first, entries[n].name);
      assert forall i | 0 <= i < n :: first[i] == entries[i];
    }
  }

  lemma {:induction false} BlanksStripped(blanks: string, rest: string)
    requires forall i | 0 <= i < |blanks| :: IsSpace(blanks[i])
    ensures LeftStrip(blanks + rest) == LeftStrip(rest)
  {
    if blanks == "" {
      assert blanks + rest == rest;
    } else {
      assert (blanks + rest)[1..] == blanks[1..] + rest;
      BlanksStripped(blanks[1..], rest);
    }
  }

  lemma {:induction false} StripShortens(s: string)
    ensures |LeftStrip(s)| <= |s|
    ensures s != "" && IsSpace(s[0]) ==> |LeftStrip(s)| < |s|
    ensures s != "" && !IsSpace(s[0]) ==> LeftStrip(s) == s
    ensures forall c :: c in LeftStrip(s) ==> c in s
  {
    if s != "" && IsSpace(s[0]) {
      StripShortens(s[1..]);
    }
  }

  /** What the parser takes for the name behind two blanks, before it normalises it. */
  function Taken(name: string): string
    requires name != ""
  {
    LeadStrip(if LeftStrip(name) == "" then name[|name| - 1..] else LeftStrip(name))
  }

  lemma TakenIsShorter(name: string)
    requires name != ""
    ensures Listable(name) ==> Taken(name) == name
    ensures !Listable(name) ==> |Taken(name)| < |name|
  {
    StripShortens(name);
  }

  lemma ChecksumParsed(e: Entry)
    requires IsDigest(e.value) && e.name != ""
    ensures ParseChecksum(ChecksumLine(e)) ==
            var name := SafeRelative(Taken(e.name));
            if name.Err? then Err(name.code) else Ok(Entry(name.value, e.value))
  {
    ChecksumLineCut(e.value, e.name);
    NameBehindBlanks(e.name);
  }

  lemma ChecksumLineCut(value: string, name: string)
    ensures (value + "  " + name)[..|value|] == value && (value + "  " + name)[|value|..] == "  " + name
  {
  }

  lemma NameBehindBlanks(name: string)
    requires name != ""
    ensures var rest := "  " + name;
            && LeftStrip(rest) == LeftStrip(name) != rest
            && rest[|rest| - 1..] == name[|name| - 1..]
  {
    BlanksStripped("  ", name);
    StripShortens(name);
  }

  /** A checksum line gives its entry back, or an error, or a shorter name. */
  lemma ChecksumLineRead(e: Entry)
    requires Canonical(e.name) && IsDigest(e.value)
    ensures Listable(e.name) ==> ParseChecksum(ChecksumLine(e)) == Ok(e)
    ensures !Listable(e.name) ==>
              var r := ParseChecksum(ChecksumLine(e)); r.Err? || |r.value.name| < |e.name|
  {
    ChecksumParsed(e);
    TakenIsShorter(e.name);
    CanonicalIsSafe(e.name);
    SafeIsShorter(Taken(e.name));
  }

  predicate Readable(e: Entry) {
    OneLine(e.name) && Listable(e.name)
  }

  /** The entries of a checksum list: canonical names and digests. */
  ghost predicate Checksums(entries: seq<Entry>) {
    Distinct(entries) && forall i | 0 <= i < |entries| :: Canonical(entries[i].name) && IsDigest(entries[i].value)
  }

  function ReadChecksums(text: string): Result<map<string, string>> {
    Collected(SplitLines(text), ParseChecksum, CHECKSUM_DUPLICATE)
  }

  lemma {:induction false} OneLineParts(a: string, b: string)
    ensures OneLine(a + b) <==> OneLine(a) && OneLine(b)
  {
    var s := a + b;
    assert forall i | 0 <= i < |a| :: s[i] == a[i];
    assert forall i | 0 <= i < |b| :: s[|a| + i] == b[i];
  }

  lemma HexIsOneLine(s: string)
    requires IsHex(s)
    ensures OneLine(s)
  {
  }

  lemma ChecksumLineIsOneLine(e: Entry)
    requires IsDigest(e.value)
    ensures OneLine(ChecksumLine(e)) <==> OneLine(e.name)
  {
    HexIsOneLine(e.value);
    OneLineParts(e.value + "  ", e.name);
    OneLineParts(e.value, "  ");
  }

  /** Lists of readable names are read back as they were written. */
  lemma ReadableIsReadBack(entries: seq<Entry>)
    requires Checksums(entries) && forall i | 0 <= i < |entries| :: Readable(entries[i])
    ensures ReadChecksums(Written(entries, ChecksumLine)) == Ok(MapOf(entries))
  {
    var lines := LinesOf(entries, ChecksumLine);
    forall i | 0 <= i < |lines|
      ensures OneLine(lines[i]) && lines[i] != "" && ParseChecksum(lines[i]) == Ok(entries[i])
    {
      ChecksumLineIsOneLine(entries[i]);
      ChecksumLineRead(entries[i]);
    }
    SplitInvertsJoin(lines);
    EntriesCollected(lines, entries, ParseChecksum, CHECKSUM_DUPLICATE);
  }

  lemma StripKeepsOneLine(s: string)
    requires OneLine(s)
    ensures OneLine(LeftStrip(s))
  {
    StripShortens(s);
    assert forall i | 0 <= i < |LeftStrip(s)| :: LeftStrip(s)[i] in LeftStrip(s);
  }

  lemma CharactersOneLine(part: string, whole: string)
    requires OneLine(whole) && forall c :: c in part ==> c == '.' || c in whole
    ensures OneLine(part)
  {
    forall i | 0 <= i < |part|
      ensures !IsLineBoundary(part[i])
    {
      assert part[i] in part;
    }
  }

  /** A name that is read from a line is one line itself. */
  lemma ReadNamesAreOneLine(line: string)
    requires OneLine(line) && ParseChecksum(line).Ok?
    ensures OneLine(ParseChecksum(line).value.name)
  {
    var rest := line[64..];
    assert OneLine(rest);
    StripKeepsOneLine(rest);
    var body := LeftStrip(rest);
    var name := if body == "" then rest[|rest| - 1..] else body;
    assert OneLine(name);
    SafeIsShorter(LeadStrip(name));
    CharactersOneLine(SafeRelative(LeadStrip(name)).value, name);
  }

  /** If the list is read back as it was written, no name is broken over lines. */
  lemma ReadBackIsOneLine(entries: seq<Entry>, k: nat)
    requires k < |entries| && ReadChecksums(Written(entries, ChecksumLine)) == Ok(MapOf(entries))
    ensures OneLine(entries[k].name)
  {
    var lines := SplitLines(Written(entries, ChecksumLine));
    MapOfHas(entries, entries[k].name);
    CollectedComesFromLines(lines, ParseChecksum, CHECKSUM_DUPLICATE, entries[k].name);
    var i :| 0 <= i < |lines| && lines[i] != "" &&
             ParseChecksum(lines[i]) == Ok(Entry(entries[k].name, MapOf(entries)[entries[k].name]));
    SplitLinesAreLines(Written(entries, ChecksumLine));
    ReadNamesAreOneLine(lines[i]);
  }

  lemma LinesReadBack(entries: seq<Entry>)
    requires Checksums(entries) && forall i | 0 <= i < |entries| :: OneLine(entries[i].name)
    ensures SplitLines(Written(entries, ChecksumLine)) == LinesOf(entries, ChecksumLine)
  {
    var lines := LinesOf(entries, ChecksumLine);
    forall i | 0 <= i < |lines|
      ensures OneLine(lines[i])
    {
      ChecksumLineIsOneLine(entries[i]);
    }
    SplitInvertsJoin(lines);
  }

  lemma NamesReadApart(lines: seq<string>, parse: string -> Result<Entry>, duplicate: string, i: nat, j: nat)
    requires Collected(lines, parse, duplicate).Ok? && i < |lines| && j < |lines| && i != j
    requires lines[i] != "" && lines[j] != ""
    ensures parse(lines[i]).Ok? && parse(lines[j]).Ok? && parse(lines[i]).value.name != parse(lines[j]).value.name
  {
    LinesAreCollected(lines, parse, duplicate, i);
    LinesAreCollected(lines, parse, duplicate, j);
  }

  /** A name that is read shorter would take the place of another entry: no name can be shortened. */
  lemma {:induction false} ReadBackIsListable(entries: seq<Entry>, k: nat, length: nat)
    requires Checksums(entries) && forall i | 0 <= i < |entries| :: OneLine(entries[i].name)
    requires ReadChecksums(Written(entries, ChecksumLine)) == Ok(MapOf(entries))
    requires k < |entries| && |entries[k].name| == length
    ensures Listable(entries[k].name)
    decreases length
  {
    LinesReadBack(entries);
    var lines := LinesOf(entries, ChecksumLine);
    LinesAreCollected(lines, ParseChecksum, CHECKSUM_DUPLICATE, k);
    ChecksumLineRead(entries[k]);
    var read := ParseChecksum(lines[k]).value.name;
    if !Listable(entries[k].name) {
      MapOfHas(entries, read);
      var j :| 0 <= j < |entries| && entries[j].name == read;
      ReadBackIsListable(entries, j, |read|);
      ChecksumLineRead(entries[j]);
      NamesReadApart(lines, ParseChecksum, CHECKSUM_DUPLICATE, j, k);
      assert false;
    }
  }

  /** The checksum list is read back as it was written exactly when every name is readable. */
  lemma ChecksumRoundTrip(entries: seq<Entry>)
    requires Checksums(entries)
    ensures ReadChecksums(Written(entries, ChecksumLine)) == Ok(MapOf(entries))
       <==> forall i | 0 <= i < |entries| :: Readable(entries[i])
  {
    if ReadChecksums(Written(entries, ChecksumLine)) == Ok(MapOf(entries)) {
      forall i | 0 <= i < |entries|
        ensures OneLine(entries[i].name)
      {
        ReadBackIsOneLine(entries, i);
      }
      forall i | 0 <= i < |entries|
        ensures Readable(entries[i])
      {
        ReadBackIsListable(entries, i, |entries[i].name|);
      }
    } else if forall i | 0 <= i < |entries| :: Readable(entries[i]) {
      ReadableIsReadBack(entries);
    }
  }
}
