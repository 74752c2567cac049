/** The verification of a release directory against the lists inside it. */
module ReleaseVerifier {
  import opened Prelude
  import opened PythonText
  import opened PosixPath
  import opened ReleaseInventory
  import opened ReleaseRoundTrip
  import opened LinkRoundTrip

  /** The permission bits that are looked at; `special` are setuid, setgid and sticky. */
  datatype Mode = Mode(groupOrOtherWrite: bool, special: bool, otherRead: bool, otherExecute: bool)

  /** `inside`: the link resolves to something in the release. */
  datatype Node = Regular(digest: string, mode: Mode) | Directory(mode: Mode) | Symlink(target: string, inside: bool) | Special

  datatype TreeEntry = TreeEntry(name: string, rootOwned: bool, node: Node)

  datatype Identity = Identity(sourceSha: string, sourceTree: string)

  /** `manifest` is absent if the manifest has another format; `entries` lists everything below the root. */
  datatype Release = Release(directory: string, metadataPresent: bool, manifest: Option<Identity>,
                             checksums: string, symlinks: string, entries: seq<TreeEntry>)

  const SUMS := "RELEASE_SHA256SUMS"

  predicate IsObjectId(s: string) {
    |s| == 40 && IsHex(s)
  }

  /** The identity of a release is a pair of Git object names that the directory and the expectations agree with. */
  lemma IdentifiedExactly(r: Release, sha: Option<string>, tree: Option<string>)
    ensures Identified(r, sha, tree) <==>
              && r.metadataPresent && r.manifest.Some? && r.directory == r.manifest.value.sourceSha
              && |r.manifest.value.sourceSha| == 40 && |r.manifest.value.sourceTree| == 40
              && (forall i | 0 <= i < 40 ::
                    IsHex([r.manifest.value.sourceSha[i]]) && IsHex([r.manifest.value.sourceTree[i]]))
              && (sha.Some? || tree.Some? ==> sha == Some(r.directory) && tree == Some(r.manifest.value.sourceTree))
  {
    if r.manifest.Some? {
      HexByCharacter(r.manifest.value.sourceSha);
      HexByCharacter(r.manifest.value.sourceTree);
    }
  }

  lemma HexByCharacter(s: string)
    ensures IsHex(s) <==> forall i | 0 <= i < |s| :: IsHex([s[i]])
  {
    forall i | 0 <= i < |s|
      ensures IsHex([s[i]]) <==> '0' <= s[i] <= '9' || 'a' <= s[i] <= 'f'
    {
      assert [s[i]][0] == s[i];
    }
  }

  /** The expected commit and tree must come together and agree. */
  predicate Expected(id: Identity, sha: Option<string>, tree: Option<string>) {
    (sha.None? && tree.None?) || (sha == Some(id.sourceSha) && tree == Some(id.sourceTree))
  }

  predicate Identified(r: Release, sha: Option<string>, tree: Option<string>) {
    && r.metadataPresent && r.manifest.Some?
    && IsObjectId(r.manifest.value.sourceSha) && IsObjectId(r.manifest.value.sourceTree)
    && r.directory == r.manifest.value.sourceSha && Expected(r.manifest.value, sha, tree)
  }

  /** Owned by root, not writable by others, readable by all, and with no link to the outside. */
  predicate Sealed(e: TreeEntry) {
    e.rootOwned &&
    match e.node
    case Regular(_, m) => !m.groupOrOtherWrite && !m.special && m.otherRead
    case Directory(m) => !m.groupOrOtherWrite && !m.special && m.otherRead && m.otherExecute
    case Symlink(_, inside) => inside
    case Special => false
  }

  /** The files that the checksum list must name, and the links. */
  function FilesIn(entries: seq<TreeEntry>): seq<Entry> {
    if entries == [] then []
    else
      var rest, last := FilesIn(entries[..|entries| - 1]), entries[|entries| - 1];
      if last.node.Regular? && last.name != SUMS then rest + [Entry(last.name, last.node.digest)] else rest
  }

  function LinksIn(entries: seq<TreeEntry>): seq<Entry> {
    if entries == [] then []
    else
      var rest, last := LinksIn(entries[..|entries| - 1]), entries[|entries| - 1];
      if last.node.Symlink? then rest + [Entry(last.name, last.node.target)] else rest
  }

  /** The lists of the release name exactly its files with their digests, and exactly its links. */
  predicate Exact(r: Release) {
    && ReadChecksums(r.checksums) == Ok(MapOf(FilesIn(r.entries))) && FilesIn(r.entries) != []
    && ReadLinks(r.symlinks) == Ok(MapOf(LinksIn(r.entries)))
  }

  predicate AllSealed(entries: seq<TreeEntry>) {
    forall e | e in entries :: Sealed(e)
  }

  lemma MapOfSnoc(entries: seq<Entry>, e: Entry)
    ensures MapOf(entries + [e]) == MapOf(entries)[e.name := e.value]
  {
    assert (entries + [e])[..|entries|] == entries;
  }

  /** The walk over the tree. */
  method Walk(entries: seq<TreeEntry>) returns (r: Result<(map<string, string>, map<string, string>)>)
    ensures r.Ok? <==> AllSealed(entries)
    ensures r.Ok? ==> r.value == (MapOf(FilesIn(entries)), MapOf(LinksIn(entries)))
  {
    var files: map<string, string>, links: map<string, string> := map[], map[];
    for i := 0 to |entries|
      invariant files == MapOf(FilesIn(entries[..i])) && links == MapOf(LinksIn(entries[..i]))
      invariant AllSealed(entries[..i])
    {
      var e := entries[i];
      assert entries[..i + 1][..i] == entries[..i];
      assert e in entries;
      MapOfSnoc(FilesIn(entries[..i]), Entry(e.name, if e.node.Regular? then e.node.digest else ""));
      MapOfSnoc(LinksIn(entries[..i]), Entry(e.name, if e.node.Symlink? then e.node.target else ""));
      if !e.rootOwned {
        return Err("RELEASE_OWNERSHIP_INVALID");
      }
      match e.node {
        case Symlink(target, inside) =>
          links := links[e.name := target];
          if !inside {
            return Err("RELEASE_SYMLINK_INVALID");
          }
        case Directory(m) =>
          if m.groupOrOtherWrite || m.special || !m.otherRead || !m.otherExecute {
            return Err("RELEASE_PERMISSIONS_INVALID");
          }
        case Regular(digest, m) =>
          if m.groupOrOtherWrite || m.special || !m.otherRead {
            return Err("RELEASE_PERMISSIONS_INVALID");
          }
          if e.name != SUMS {
            files := files[e.name := digest];
          }
        case Special =>
          return Err("RELEASE_ENTRY_TYPE_INVALID");
      }
    }
    assert entries[..|entries|] == entries;
    return Ok((files, links));
  }

  /** `expected_source_sha` and `expected_source_tree` against the manifest. */
  method CheckIdentity(r: Release, sha: Option<string>, tree: Option<string>) returns (error: Option<string>)
    ensures error.None? <==> Identified(r, sha, tree)
  {
    if !r.metadataPresent {
      return Some("RELEASE_METADATA_MISSING");
    }
    if r.manifest.None? {
      return Some("RELEASE_MANIFEST_INVALID");
    }
    var id := r.manifest.value;
    if !IsObjectId(id.sourceSha) {
      return Some("RELEASE_SOURCE_SHA_INVALID");
    }
    if !IsObjectId(id.sourceTree) {
      return Some("RELEASE_SOURCE_TREE_INVALID");
    }
    if r.directory != id.sourceSha {
      return Some("RELEASE_DIRECTORY_SHA_MISMATCH");
    }
    if sha.None? != tree.None? {
      return Some("RELEASE_EXPECTED_SOURCE_PAIR_REQUIRED");
    }
    if sha.Some? {
      if !IsObjectId(sha.value) {
        return Some("RELEASE_EXPECTED_SOURCE_SHA_INVALID");
      }
      if !IsObjectId(tree.value) {
        return Some("RELEASE_EXPECTED_SOURCE_TREE_INVALID");
      }
      if sha.value != id.sourceSha {
        return Some("RELEASE_EXPECTED_SOURCE_SHA_MISMATCH");
      }
      if tree.value != id.sourceTree {
        return Some("RELEASE_EXPECTED_SOURCE_TREE_MISMATCH");
      }
    }
    return None;
  }

  /** Every listed digest is that of the file. */
  method CompareDigests(expected: map<string, string>, actual: map<string, string>) returns (same: bool)
    requires expected.Keys == actual.Keys
    ensures same <==> expected == actual
  {
    var rest := expected.Keys;
    while rest != {}
      invariant rest <= expected.Keys
      invariant forall name | name in expected && name !in rest :: actual[name] == expected[name]
      decreases rest
    {
      var name :| name in rest;
      if actual[name] != expected[name] {
        return false;
      }
      rest := rest - {name};
    }
    return true;
  }

  /** `verify_release` passes exactly an identified, sealed release with exact lists. */
  method VerifyRelease(r: Release, sha: Option<string>, tree: Option<string>) returns (verdict: Result<(nat, nat)>)
    ensures verdict.Ok? <==> Identified(r, sha, tree) && AllSealed(r.entries) && Exact(r)
    ensures verdict.Ok? ==> verdict.value == (|MapOf(FilesIn(r.entries))|, |MapOf(LinksIn(r.entries))|)
  {
    var error := CheckIdentity(r, sha, tree);
    if error.Some? {
      return Err(error.value);
    }
    var checksums := Collect(SplitLines(r.checksums), ParseChecksum, CHECKSUM_DUPLICATE);
    if checksums.Err? {
      return Err(checksums.code);
    }
    NoFiles(FilesIn(r.entries));
    if checksums.value == map[] {
      return Err("RELEASE_CHECKSUM_LIST_EMPTY");
    }
    var actual := Walk(r.entries);
    if actual.Err? {
      return Err(actual.code);
    }
    if checksums.value.Keys != actual.value.0.Keys {
      return Err("RELEASE_FILE_SET_MISMATCH");
    }
    var same := CompareDigests(checksums.value, actual.value.0);
    if !same {
      return Err("RELEASE_CHECKSUM_MISMATCH");
    }
    var symlinks := Collect(SplitLines(r.symlinks), ParseLink, SYMLINK_DUPLICATE);
    if symlinks.Err? {
      return Err(symlinks.code);
    }
    if symlinks.value != actual.value.1 {
      return Err("RELEASE_SYMLINK_SET_MISMATCH");
    }
    return Ok((|actual.value.0|, |actual.value.1|));
  }

  lemma NoFiles(entries: seq<Entry>)
    ensures MapOf(entries) == map[] <==> entries == []
  {
    if entries != [] {
      MapOfHas(entries, entries[0].name);
    }
  }

  /** The metadata that the packager writes for the tree that it has staged. */
  function WithLists(r: Release): Release {
    r.(checksums := Written(FilesIn(r.entries), ChecksumLine), symlinks := Written(LinksIn(r.entries), LinkLine))
  }

  /** Names in a tree differ, are canonical, and file digests are digests. */
  ghost predicate ProperTree(entries: seq<TreeEntry>) {
    Checksums(FilesIn(entries)) && Links(LinksIn(entries))
  }

  /** Every name, and every link target, can be listed. */
  predicate AllReadable(files: seq<Entry>, links: seq<Entry>) {
    && (forall i | 0 <= i < |files| :: Readable(files[i]))
    && (forall i | 0 <= i < |links| :: ReadableLink(links[i]))
  }

  lemma ListsReadBack(files: seq<Entry>, links: seq<Entry>)
    requires Checksums(files) && Links(links)
    ensures (&& ReadChecksums(Written(files, ChecksumLine)) == Ok(MapOf(files))
             && ReadLinks(Written(links, LinkLine)) == Ok(MapOf(links))) <==> AllReadable(files, links)
  {
    ChecksumRoundTrip(files);
    LinksRoundTrip(links);
  }

  /** A release that is verified with the lists that were written for it passes exactly when every name can be listed. */
  lemma WrittenReleasePasses(r: Release)
    requires ProperTree(r.entries)
    ensures Exact(WithLists(r)) <==> FilesIn(r.entries) != [] && AllReadable(FilesIn(r.entries), LinksIn(r.entries))
  {
    ListsReadBack(FilesIn(r.entries), LinksIn(r.entries));
  }

  /** Two trees that pass with the same lists have the same files, digests and links. */
  lemma ListsPinTheTree(r: Release, changed: seq<TreeEntry>)
    requires Exact(r) && Exact(r.(entries := changed))
    ensures MapOf(FilesIn(changed)) == MapOf(FilesIn(r.entries)) && MapOf(LinksIn(changed)) == MapOf(LinksIn(r.entries))
  {
  }
}
