/** Exactly which releases have a symlink list that can be read back as it was written. */
module LinkRoundTrip {
  import opened Prelude
  import opened PythonText
  import opened PosixPath
  import opened ReleaseInventory
  import opened ReleaseRoundTrip

  predicate ReadableLink(e: Entry) {
    OneLine(e.name) && '\t' !in e.name && OneLine(e.value)
  }

  ghost predicate Links(entries: seq<Entry>) {
    Distinct(entries) && forall i | 0 <= i < |entries| :: Canonical(entries[i].name)
  }

  function ReadLinks(text: string): Result<map<string, string>> {
    Collected(SplitLines(text), ParseLink, SYMLINK_DUPLICATE)
  }

  lemma {:induction false} TabFound(name: string, rest: string)
    requires '\t' !in name
    ensures ToTab(name + "\t" + rest) == |name|
  {
    if name == "" {
      assert name + "\t" + rest == "\t" + rest;
    } else {
      assert (name + "\t" + rest)[1..] == name[1..] + "\t" + rest;
      TabFound(name[1..], rest);
    }
  }

  lemma LinkLineRead(e: Entry)
    requires Canonical(e.name) && ReadableLink(e)
    ensures ParseLink(LinkLine(e)) == Ok(e) && OneLine(LinkLine(e)) && LinkLine(e) != ""
  {
    TabFound(e.name, e.value);
    CanonicalIsSafe(e.name);
    var line := LinkLine(e);
    assert line[..|e.name|] == e.name && line[|e.name| + 1..] == e.value;
    OneLineParts(e.name + "\t", e.value);
    OneLineParts(e.name, "\t");
  }

  /** What is read from a line has no line break, and its name no tab. */
  lemma ReadLinksAreReadable(line: string)
    requires OneLine(line) && ParseLink(line).Ok?
    ensures ReadableLink(ParseLink(line).value)
  {
    var n := ToTab(line);
    SafeIsShorter(line[..n]);
    assert OneLine(line[..n]) && OneLine(line[n + 1..]);
    CharactersOneLine(SafeRelative(line[..n]).value, line[..n]);
  }

  lemma ReadBackIsReadable(entries: seq<Entry>, k: nat)
    requires Links(entries) && k < |entries| && ReadLinks(Written(entries, LinkLine)) == Ok(MapOf(entries))
    ensures ReadableLink(entries[k])
  {
    var lines := SplitLines(Written(entries, LinkLine));
    MapOfHas(entries, entries[k].name);
    CollectedComesFromLines(lines, ParseLink, SYMLINK_DUPLICATE, entries[k].name);
    var i :| 0 <= i < |lines| && lines[i] != "" &&
             ParseLink(lines[i]) == Ok(Entry(entries[k].name, MapOf(entries)[entries[k].name]));
    SplitLinesAreLines(Written(entries, LinkLine));
    ReadLinksAreReadable(lines[i]);
  }

  /** The symlink list is read back as it was written exactly when every entry is readable. */
  lemma LinksRoundTrip(entries: seq<Entry>)
    requires Links(entries)
    ensures ReadLinks(Written(entries, LinkLine)) == Ok(MapOf(entries))
       <==> forall i | 0 <= i < |entries| :: ReadableLink(entries[i])
  {
    if ReadLinks(Written(entries, LinkLine)) == Ok(MapOf(entries)) {
      forall i | 0 <= i < |entries|
        ensures ReadableLink(entries[i])
      {
        ReadBackIsReadable(entries, i);
      }
    } else if forall i | 0 <= i < |entries| :: ReadableLink(entries[i]) {
      var lines := LinesOf(entries, LinkLine);
      forall i | 0 <= i < |lines|
        ensures OneLine(lines[i]) && lines[i] != "" && ParseLink(lines[i]) == Ok(entries[i])
      {
        LinkLineRead(entries[i]);
      }
      SplitInvertsJoin(lines);
      EntriesCollected(lines, entries, ParseLink, SYMLINK_DUPLICATE);
      assert false;
    }
  }
}
