/** The check of a package archive against the staged tree that it was made from. */
module ArchiveVerifier {
  import opened Prelude
  import opened PosixPath

  /** What the staged tree has under a name. */
  datatype Staged = StagedLink(target: string) | StagedDirectory(mode: bv12) | StagedFile(digest: string, mode: bv12, size: nat)

  datatype Content = LinkContent(target: string) | DirectoryContent | FileContent(digest: string) | OtherContent

  datatype Member = Member(name: string, uid: nat, gid: nat, mode: bv12, size: nat, content: Content)

  /** `safe_name` */
  predicate SafeName(s: string) {
    Canonical(s) && NoControl(s)
  }

  /** A member's name is a relative path of printed names that stand for themselves. */
  lemma SafeNameExactly(s: string)
    ensures SafeName(s) <==>
              && (forall i | 0 <= i < |Split(s)| :: Split(s)[i] != "" && Split(s)[i] != "." && Split(s)[i] != "..")
              && (forall i | 0 <= i < |s| :: ' ' <= s[i] && s[i] != '\U{007F}')
  {
    CanonicalExactly(s);
  }

  /** The member is what is staged, owned by root and not writable by others. */
  predicate Matches(m: Member, s: Staged) {
    && m.uid == 0 && m.gid == 0 && m.mode & 0xE00 == 0 && (m.content.LinkContent? || m.mode & 0x12 == 0)
    && match s
       case StagedLink(target) => m.content == LinkContent(target) && m.size == 0
       case StagedDirectory(mode) => m.content == DirectoryContent && m.mode == mode && m.size == 0
       case StagedFile(digest, mode, size) => m.content == FileContent(digest) && m.mode == mode && m.size == size
  }

  /** Every staged entry is in the archive exactly once, and nothing else is. */
  ghost predicate ExactArchive(members: seq<Member>, expected: map<string, Staged>) {
    && (forall i, j | 0 <= i < j < |members| :: members[i].name != members[j].name)
    && (forall m | m in members :: SafeName(m.name) && m.name in expected && Matches(m, expected[m.name]))
    && (forall name | name in expected :: exists m :: m in members && m.name == name)
  }

  /** One member, with the names that have been seen before it. */
  method CheckMember(m: Member, expected: map<string, Staged>, seen: set<string>) returns (error: Option<string>)
    ensures error.None? <==> m.name !in seen && SafeName(m.name) && m.name in expected && Matches(m, expected[m.name])
  {
    if !SafeName(m.name) {
      return Some("PACKAGE_PATH_INVALID");
    }
    if
      || m.name in seen || m.name !in expected || m.uid != 0 || m.gid != 0
      || m.mode & 0xE00 != 0 || (!m.content.LinkContent? && m.mode & 0x12 != 0)
    {
      return Some("PACKAGE_ARCHIVE_ENTRY_INVALID");
    }
    var s := expected[m.name];
    if
      || (!s.StagedLink? && m.mode != s.mode) || (s.StagedFile? && m.size != s.size)
      || (!s.StagedFile? && m.size != 0)
    {
      return Some("PACKAGE_ARCHIVE_METADATA_MISMATCH");
    }
    if
      || (s.StagedDirectory? && m.content.DirectoryContent?)
      || (s.StagedLink? && m.content.LinkContent? && m.content.target == s.target)
      || (s.StagedFile? && m.content.FileContent? && m.content.digest == s.digest)
    {
      return None;
    }
    return Some("PACKAGE_ARCHIVE_CONTENT_MISMATCH");
  }

  /** The first members are different and as staged. */
  ghost predicate Accepted(members: seq<Member>, n: nat, expected: map<string, Staged>)
    requires n <= |members|
  {
    && (forall j, k | 0 <= j < k < n :: members[j].name != members[k].name)
    && (forall k | 0 <= k < n ::
          SafeName(members[k].name) && members[k].name in expected && Matches(members[k], expected[members[k].name]))
  }

  ghost predicate Seen(members: seq<Member>, n: nat, seen: set<string>)
    requires n <= |members|
  {
    forall name :: name in seen <==> exists k :: 0 <= k < n && members[k].name == name
  }

  lemma OneMore(members: seq<Member>, n: nat, expected: map<string, Staged>, seen: set<string>)
    requires n < |members| && Accepted(members, n, expected) && Seen(members, n, seen)
    ensures Seen(members, n + 1, seen + {members[n].name})
    ensures (&& members[n].name !in seen && SafeName(members[n].name) && members[n].name in expected
             && Matches(members[n], expected[members[n].name])) ==> Accepted(members, n + 1, expected)
  {
    forall name
      ensures name in seen + {members[n].name} <==> exists k :: 0 <= k < n + 1 && members[k].name == name
    {
      if name == members[n].name {
        assert 0 <= n < n + 1 && members[n].name == name;
      }
    }
  }

  lemma Refused(members: seq<Member>, n: nat, expected: map<string, Staged>, seen: set<string>)
    requires n < |members| && Seen(members, n, seen) && ExactArchive(members, expected)
    ensures members[n].name !in seen && SafeName(members[n].name) && members[n].name in expected
            && Matches(members[n], expected[members[n].name])
  {
    assert members[n] in members;
  }

  lemma Complete(members: seq<Member>, expected: map<string, Staged>, seen: set<string>)
    requires Accepted(members, |members|, expected) && Seen(members, |members|, seen)
    ensures ExactArchive(members, expected) <==> seen == expected.Keys
  {
    if seen == expected.Keys {
      forall name | name in expected
        ensures exists m :: m in members && m.name == name
      {
        assert name in seen;
        var k :| 0 <= k < |members| && members[k].name == name;
        assert members[k] in members;
      }
    } else if ExactArchive(members, expected) {
      SeenAll(members, expected, seen);
    }
  }

  /** `verify_archive` */
  method VerifyArchive(members: seq<Member>, expected: map<string, Staged>) returns (error: Option<string>)
    ensures error.None? <==> ExactArchive(members, expected)
  {
    var seen: set<string> := {};
    for i := 0 to |members|
      invariant Accepted(members, i, expected) && Seen(members, i, seen)
    {
      error := CheckMember(members[i], expected, seen);
      if error.Some? {
        if ExactArchive(members, expected) {
          Refused(members, i, expected, seen);
        }
        return;
      }
      OneMore(members, i, expected, seen);
      seen := seen + {members[i].name};
    }
    Complete(members, expected, seen);
    return if seen != expected.Keys then Some("PACKAGE_ARCHIVE_FILE_SET_MISMATCH") else None;
  }

  lemma SeenAll(members: seq<Member>, expected: map<string, Staged>, seen: set<string>)
    requires ExactArchive(members, expected)
    requires forall name :: name in seen <==> exists k :: 0 <= k < |members| && members[k].name == name
    ensures seen == expected.Keys
  {
    forall name | name in expected
      ensures name in seen
    {
      var m :| m in members && m.name == name;
      var k :| 0 <= k < |members| && members[k] == m;
      assert members[k].name == name;
    }
    forall name | name in seen
      ensures name in expected
    {
      var k :| 0 <= k < |members| && members[k].name == name;
      assert members[k] in members;
    }
  }
}
