/** Retention: the newest verified backups and everything unverified stay. */
module BackupRetention {
  import opened Prelude
  import opened SetSizes
  import opened StableSort
  import opened UtcTimestamps

  /** A manifest that is an object; `createdAt` is absent if it is no text. */
  datatype Manifest = Manifest(format: string, listVerified: bool, sha256: string, bytes: int, createdAt: Option<string>)

  /** `listable`: the restore tool lists something in the archive. */
  datatype Archive = Archive(size: nat, sha256: string, listable: bool)

  /** A real directory with its regular files, as far as they are there and readable, or anything else. */
  datatype Entry = Directory(manifest: Option<Manifest>, archive: Option<Archive>) | NoDirectory

  const FORMAT := "octoport-postgres-backup-v1"
  const PREFIX := "backup-"

  predicate ManifestHolds(m: Manifest, a: Archive) {
    && m.format == FORMAT && m.listVerified && m.createdAt.Some? && IsCanonical(m.createdAt.value)
    && a.size == m.bytes && a.sha256 == m.sha256 && a.listable
  }

  /** What may influence retention. */
  predicate Verified(name: string, e: Entry) {
    && PREFIX <= name && e.Directory? && e.manifest.Some? && e.archive.Some?
    && ManifestHolds(e.manifest.value, e.archive.value)
  }

  /** A verified backup says of itself just what the archive beside it is, and when it was made. */
  lemma VerifiedExactly(name: string, e: Entry)
    ensures Verified(name, e) <==>
              && |name| >= 7 && name[..7] == "backup-" && e.Directory? && e.archive.Some? && e.archive.value.listable
              && exists createdAt | IsCanonical(createdAt) ::
                   e.manifest == Some(Manifest("octoport-postgres-backup-v1", true, e.archive.value.sha256,
                                               e.archive.value.size, Some(createdAt)))
  {
    if Verified(name, e) {
      assert IsCanonical(e.manifest.value.createdAt.value);
    }
  }

  function VerifiedNames(entries: map<string, Entry>): set<string> {
    set name | name in entries && Verified(name, entries[name])
  }

  function CreatedAt(name: string, e: Entry): Timestamp
    requires Verified(name, e)
  {
    e.manifest.value.createdAt.value
  }

  /** A verified backup with its timestamp. */
  datatype Dated = Dated(createdAt: Timestamp, name: string)

  function NewerThan(): (Dated, Dated) -> bool {
    (a: Dated, b: Dated) => Less(b.createdAt, a.createdAt)
  }

  function TimeKey(): Dated -> int {
    (d: Dated) => TimeOf(d.createdAt)
  }

  /** Sorting the texts in reverse puts the newest backups first. */
  lemma NewestFirst(list: seq<Dated>)
    ensures Descending(Sorted(list, NewerThan()), TimeKey())
  {
    forall a: Dated, b: Dated
      ensures NewerThan()(a, b) <==> TimeKey()(a) > TimeKey()(b)
    {
      TextOrderIsTimeOrder(b.createdAt, a.createdAt);
    }
    SortedDescends(list, NewerThan(), TimeKey());
  }

  /** The verified backups with their timestamps. */
  function DatedSet(entries: map<string, Entry>): set<Dated> {
    set name | name in VerifiedNames(entries) :: Dated(CreatedAt(name, entries[name]), name)
  }

  /** Every verified backup once, the newest first. */
  ghost predicate IsListing(valid: seq<Dated>, entries: map<string, Entry>) {
    multiset(valid) == multiset(DatedSet(entries)) && Descending(valid, TimeKey())
  }

  lemma ListingLength(valid: seq<Dated>, entries: map<string, Entry>)
    requires IsListing(valid, entries)
    ensures |valid| == |VerifiedNames(entries)|
  {
    forall name | name in VerifiedNames(entries)
      ensures exists d :: d in DatedSet(entries) && d.name == name
    {
      assert Dated(CreatedAt(name, entries[name]), name) in DatedSet(entries);
    }
    OneToOne(DatedSet(entries), VerifiedNames(entries), (d: Dated) => d.name);
    assert |multiset(valid)| == |valid| && |multiset(DatedSet(entries))| == |DatedSet(entries)|;
  }

  /** What is left after some backups have been removed. */
  function Without(entries: map<string, Entry>, dropped: seq<Dated>): map<string, Entry> {
    entries - (set d | d in dropped :: d.name)
  }

  /** A listed backup is verified, with its own time, and listed once. */
  lemma ListingMeans(valid: seq<Dated>, entries: map<string, Entry>, i: nat)
    requires IsListing(valid, entries) && i < |valid|
    ensures valid[i].name in VerifiedNames(entries)
    ensures CreatedAt(valid[i].name, entries[valid[i].name]) == valid[i].createdAt
    ensures forall j | 0 <= j < |valid| && valid[j].name == valid[i].name :: j == i
  {
    InListing(valid, entries, i);
    forall j | 0 <= j < |valid| && valid[j].name == valid[i].name
      ensures j == i
    {
      InListing(valid, entries, j);
      if i < j {
        Twice(valid, i, j);
      } else if j < i {
        Twice(valid, j, i);
      }
    }
  }

  lemma InListing(valid: seq<Dated>, entries: map<string, Entry>, i: nat)
    requires multiset(valid) == multiset(DatedSet(entries)) && i < |valid|
    ensures valid[i] in DatedSet(entries) && multiset(valid)[valid[i]] == 1
  {
    assert valid[i] in valid;
    assert valid[i] in multiset(valid);
  }

  lemma Twice(valid: seq<Dated>, i: nat, j: nat)
    requires i < j < |valid| && valid[i] == valid[j]
    ensures multiset(valid)[valid[i]] >= 2
  {
    assert valid == valid[..j] + [valid[j]] + valid[j + 1..];
    assert valid[..j][i] == valid[i];
    assert valid[i] in multiset(valid[..j]);
  }

  lemma ListingCovers(valid: seq<Dated>, entries: map<string, Entry>, name: string)
    requires IsListing(valid, entries) && name in VerifiedNames(entries)
    ensures exists i :: 0 <= i < |valid| && valid[i].name == name
  {
    var d := Dated(CreatedAt(name, entries[name]), name);
    assert d in DatedSet(entries);
    assert d in multiset(valid);
    assert d in valid;
  }

  function NamesOf(list: seq<Dated>): set<string> {
    set d | d in list :: d.name
  }

  /** The backups behind the first ones are exactly the verified ones that are removed. */
  lemma RemovedAndKept(valid: seq<Dated>, entries: map<string, Entry>, k: nat)
    requires IsListing(valid, entries) && k <= |valid|
    ensures VerifiedNames(Without(entries, valid[k..])) == NamesOf(valid[..k])
    ensures |NamesOf(valid[..k])| == k
  {
    var after := Without(entries, valid[k..]);
    forall name
      ensures name in VerifiedNames(after) <==> name in NamesOf(valid[..k])
    {
      if name in VerifiedNames(after) {
        ListingCovers(valid, entries, name);
        var i :| 0 <= i < |valid| && valid[i].name == name;
        Dropped(valid, k, i);
        assert valid[..k][i] == valid[i];
      } else if name in NamesOf(valid[..k]) {
        var i :| 0 <= i < k && valid[i].name == name;
        ListingMeans(valid, entries, i);
        StillThere(valid, entries, k, i);
      }
    }
    FirstNames(valid, entries, k);
  }

  lemma Dropped(valid: seq<Dated>, k: nat, i: nat)
    requires k <= |valid| && i < |valid|
    ensures i >= k ==> valid[i].name in NamesOf(valid[k..])
  {
    assert i >= k ==> valid[k..][i - k] == valid[i];
  }

  lemma StillThere(valid: seq<Dated>, entries: map<string, Entry>, k: nat, i: nat)
    requires IsListing(valid, entries) && i < k <= |valid|
    ensures valid[i].name in VerifiedNames(Without(entries, valid[k..]))
  {
    ListingMeans(valid, entries, i);
    forall d | d in valid[k..]
      ensures d.name != valid[i].name
    {
      var j :| k <= j < |valid| && valid[j] == d;
      assert j != i;
    }
  }

  lemma {:induction false} DistinctNames(list: seq<Dated>)
    requires forall i, j | 0 <= i < j < |list| :: list[i].name != list[j].name
    ensures |NamesOf(list)| == |list|
  {
    if list != [] {
      var init, last := list[..|list| - 1], list[|list| - 1];
      DistinctNames(init);
      assert list == init + [last];
      assert NamesOf(list) == NamesOf(init) + {last.name};
      assert last.name !in NamesOf(init);
    }
  }

  lemma FirstNames(valid: seq<Dated>, entries: map<string, Entry>, k: nat)
    requires IsListing(valid, entries) && k <= |valid|
    ensures |NamesOf(valid[..k])| == k
  {
    forall i, j | 0 <= i < j < k
      ensures valid[i].name != valid[j].name
    {
      ListingMeans(valid, entries, i);
    }
    DistinctNames(valid[..k]);
  }

  /** What retention leaves: as many verified backups as it may keep, none older than a removed one, and all others. */
  ghost predicate Retained(before: map<string, Entry>, after: map<string, Entry>, keep: nat) {
    && (forall name | name in after :: name in before && after[name] == before[name])
    && (forall name | name in before && !Verified(name, before[name]) :: name in after)
    && |VerifiedNames(after)| == (if keep <= |VerifiedNames(before)| then keep else |VerifiedNames(before)|)
    && (forall kept, gone | kept in VerifiedNames(after) && gone in VerifiedNames(before) && gone !in after ::
          TimeOf(CreatedAt(kept, after[kept])) >= TimeOf(CreatedAt(gone, before[gone])))
  }

  lemma KeptIsAsNew(before: map<string, Entry>, after: map<string, Entry>, keep: nat, kept: string, gone: string)
    requires Retained(before, after, keep) && kept in VerifiedNames(after) && gone in VerifiedNames(before)
    ensures gone in VerifiedNames(after) || TimeOf(CreatedAt(kept, after[kept])) >= TimeOf(CreatedAt(gone, before[gone]))
  {
  }

  lemma KeepsNewest(valid: seq<Dated>, entries: map<string, Entry>, k: nat, kept: string, gone: string)
    requires IsListing(valid, entries) && k <= |valid|
    requires kept in NamesOf(valid[..k]) && kept in VerifiedNames(entries)
    requires gone in NamesOf(valid[k..]) && gone in VerifiedNames(entries)
    ensures TimeOf(CreatedAt(kept, entries[kept])) >= TimeOf(CreatedAt(gone, entries[gone]))
  {
    var i :| 0 <= i < k && valid[i].name == kept;
    var j :| k <= j < |valid| && valid[j].name == gone;
    ListingMeans(valid, entries, i);
    ListingMeans(valid, entries, j);
    assert TimeKey()(valid[i]) >= TimeKey()(valid[j]);
  }

  lemma OnlyVerifiedGo(valid: seq<Dated>, entries: map<string, Entry>, k: nat, name: string)
    requires IsListing(valid, entries) && k <= |valid| && name in NamesOf(valid[k..])
    ensures name in VerifiedNames(entries)
  {
    var j :| k <= j < |valid| && valid[j].name == name;
    ListingMeans(valid, entries, j);
  }

  /** Removing everything behind the first entries of the listing is retention. */
  lemma DroppingRetains(valid: seq<Dated>, entries: map<string, Entry>, keep: nat)
    requires IsListing(valid, entries)
    ensures var k := if keep <= |valid| then keep else |valid|; Retained(entries, Without(entries, valid[k..]), keep)
  {
    var k := if keep <= |valid| then keep else |valid|;
    var after := Without(entries, valid[k..]);
    ListingLength(valid, entries);
    RemovedAndKept(valid, entries, k);
    forall name | name in NamesOf(valid[k..])
      ensures name in VerifiedNames(entries)
    {
      OnlyVerifiedGo(valid, entries, k, name);
    }
    forall kept, gone | kept in VerifiedNames(after) && gone in VerifiedNames(entries) && gone !in after
      ensures TimeOf(CreatedAt(kept, after[kept])) >= TimeOf(CreatedAt(gone, entries[gone]))
    {
      KeepsNewest(valid, entries, k, kept, gone);
    }
  }

  /** The verified backups that have been looked at. */
  function FoundIn(entries: map<string, Entry>, rest: set<string>): set<Dated> {
    set name | name in VerifiedNames(entries) && name !in rest :: Dated(CreatedAt(name, entries[name]), name)
  }

  lemma FoundOne(entries: map<string, Entry>, rest: set<string>, name: string)
    requires name in rest && name in entries
    ensures Verified(name, entries[name]) ==>
              var d := Dated(CreatedAt(name, entries[name]), name);
              FoundIn(entries, rest - {name}) == FoundIn(entries, rest) + {d} && d !in FoundIn(entries, rest)
    ensures !Verified(name, entries[name]) ==> FoundIn(entries, rest - {name}) == FoundIn(entries, rest)
  {
  }

  lemma FoundAll(entries: map<string, Entry>)
    ensures FoundIn(entries, entries.Keys) == {} && FoundIn(entries, {}) == DatedSet(entries)
  {
  }

  lemma AddsOne<T>(list: seq<T>, found: set<T>, x: T)
    requires multiset(list) == multiset(found) && x !in found
    ensures multiset(list + [x]) == multiset(found + {x})
  {
  }

  lemma DropsOne(entries: map<string, Entry>, valid: seq<Dated>, k: nat, i: nat)
    requires k <= i < |valid|
    ensures Without(entries, valid[k..i + 1]) == Without(entries, valid[k..i]) - {valid[i].name}
    ensures NamesOf(valid[k..i + 1]) == NamesOf(valid[k..i]) + {valid[i].name}
  {
    assert valid[k..i + 1] == valid[k..i] + [valid[i]];
  }

  /** What is left and what has been reported when the backups from `k` up to `i` are gone. */
  ghost predicate RemovedTo(before: map<string, Entry>, valid: seq<Dated>, k: nat, i: nat,
                            entries: map<string, Entry>, removed: seq<string>)
    requires k <= i <= |valid|
  {
    && entries == Without(before, valid[k..i])
    && forall name :: name in removed <==> name in NamesOf(valid[k..i])
  }

  lemma NoneRemoved(before: map<string, Entry>, valid: seq<Dated>, k: nat)
    requires k <= |valid|
    ensures RemovedTo(before, valid, k, k, before, [])
  {
  }

  lemma RemovesOne(before: map<string, Entry>, valid: seq<Dated>, k: nat, i: nat, entries: map<string, Entry>, removed: seq<string>)
    requires k <= i < |valid| && RemovedTo(before, valid, k, i, entries, removed)
    ensures RemovedTo(before, valid, k, i + 1, entries - {valid[i].name}, removed + [valid[i].name])
  {
    DropsOne(before, valid, k, i);
  }

  lemma AllRemoved(before: map<string, Entry>, valid: seq<Dated>, k: nat, entries: map<string, Entry>, removed: seq<string>)
    requires k <= |valid| && RemovedTo(before, valid, k, |valid|, entries, removed)
    ensures entries == Without(before, valid[k..])
    ensures forall name :: name in removed <==> name in NamesOf(valid[k..])
  {
    assert valid[k..|valid|] == valid[k..];
  }

  class BackupStore {
    var entries: map<string, Entry>

    constructor (entries: map<string, Entry>)
      ensures this.entries == entries
    {
      this.entries := entries;
    }

    /** `_verified_backup_directories`; the directory is read in any order. */
    method VerifiedDirectories() returns (valid: seq<Dated>)
      ensures IsListing(valid, entries)
    {
      var found: seq<Dated> := [];
      var rest := entries.Keys;
      FoundAll(entries);
      while rest != {}
        invariant rest <= entries.Keys
        invariant multiset(found) == multiset(FoundIn(entries, rest))
        decreases rest
      {
        var name :| name in rest;
        FoundOne(entries, rest, name);
        if Verified(name, entries[name]) {
          var d := Dated(CreatedAt(name, entries[name]), name);
          AddsOne(found, FoundIn(entries, rest), d);
          found := found + [d];
        }
        rest := rest - {name};
      }
      NewestFirst(found);
      valid := Sorted(found, NewerThan());
    }

    /** The loop over the backups that are too many. */
    method Remove(valid: seq<Dated>, k: nat) returns (removed: seq<string>)
      requires k <= |valid|
      modifies this
      ensures entries == Without(old(entries), valid[k..])
      ensures forall name :: name in removed <==> name in NamesOf(valid[k..])
    {
      removed := [];
      NoneRemoved(entries, valid, k);
      var i := k;
      while i < |valid|
        invariant k <= i <= |valid|
        invariant RemovedTo(old(entries), valid, k, i, entries, removed)
      {
        RemovesOne(old(entries), valid, k, i, entries, removed);
        entries := entries - {valid[i].name};
        removed := removed + [valid[i].name];
        i := i + 1;
      }
      AllRemoved(old(entries), valid, k, entries, removed);
    }

    /** `_apply_retention` */
    method ApplyRetention(keep: int) returns (r: Result<seq<string>>)
      modifies this
      ensures keep < 1 ==> r.Err? && entries == old(entries)
      ensures keep >= 1 ==> r.Ok? && Retained(old(entries), entries, keep)
      ensures r.Ok? ==> forall name :: name in r.value <==> name in old(entries) && name !in entries
    {
      if keep < 1 {
        return Err("BACKUP_RETENTION_INVALID");
      }
      var valid := VerifiedDirectories();
      var k := if keep <= |valid| then keep else |valid|;
      DroppingRetains(valid, entries, keep);
      forall name | name in NamesOf(valid[k..])
        ensures name in entries
      {
        OnlyVerifiedGo(valid, entries, k, name);
      }
      var removed := Remove(valid, k);
      return Ok(removed);
    }

    /**
     * The end of `run_backup`: the finished backup gets its name unless that is taken, and then retention
     * is applied. The new backup stays if fewer than `keep` others are as new as it, and goes if `keep`
     * others are newer; only between backups of the same second the order of the directory decides.
     */
    method Publish(name: string, backup: Entry, keep: int) returns (r: Result<seq<string>>)
      requires Verified(name, backup)
      modifies this
      ensures keep < 1 || name in old(entries) ==> r.Err? && entries == old(entries)
      ensures keep >= 1 && name !in old(entries) ==> r.Ok? && Retained(old(entries)[name := backup], entries, keep)
      ensures keep >= 1 && name !in old(entries) ==>
                && (|AsNew(old(entries), CreatedAt(name, backup))| < keep ==> name in entries)
                && (|Newer(old(entries), CreatedAt(name, backup))| >= keep ==> name !in entries)
    {
      if keep < 1 {
        return Err("BACKUP_RETENTION_INVALID");
      }
      if name in entries {
        return Err("BACKUP_DESTINATION_COLLISION");
      }
      entries := entries[name := backup];
      r := ApplyRetention(keep);
      PublishedStays(old(entries), name, backup, entries, keep);
      PublishedGoes(old(entries), name, backup, entries, keep);
    }
  }

  /** The verified backups that are not older than a time, or newer. */
  ghost function AsNew(entries: map<string, Entry>, time: Timestamp): set<string> {
    set name | name in VerifiedNames(entries) && TimeOf(CreatedAt(name, entries[name])) >= TimeOf(time)
  }

  ghost function Newer(entries: map<string, Entry>, time: Timestamp): set<string> {
    set name | name in VerifiedNames(entries) && TimeOf(CreatedAt(name, entries[name])) > TimeOf(time)
  }

  /** Nothing verified is removed before as many are there as may be kept. */
  lemma GoneMeansFull(before: map<string, Entry>, after: map<string, Entry>, keep: nat, gone: string)
    requires Retained(before, after, keep) && gone in VerifiedNames(before) && gone !in after
    ensures |VerifiedNames(after)| == keep
  {
    assert VerifiedNames(after) <= VerifiedNames(before) - {gone};
    Subsets(VerifiedNames(after), VerifiedNames(before) - {gone});
  }

  /** A new backup that retention removes is outnumbered by backups that are as new. */
  lemma PublishedStays(before: map<string, Entry>, name: string, backup: Entry, after: map<string, Entry>, keep: nat)
    requires name !in before && Verified(name, backup) && Retained(before[name := backup], after, keep)
    ensures |AsNew(before, CreatedAt(name, backup))| < keep ==> name in after
  {
    var all := before[name := backup];
    if name !in after {
      assert name in VerifiedNames(all);
      GoneMeansFull(all, after, keep, name);
      forall kept | kept in VerifiedNames(after)
        ensures kept in AsNew(before, CreatedAt(name, backup))
      {
        KeptIsAsNew(all, after, keep, kept, name);
        assert kept in all && after[kept] == all[kept] == before[kept];
      }
      Subsets(VerifiedNames(after), AsNew(before, CreatedAt(name, backup)));
    }
  }

  /** A new backup goes when as many backups as may be kept are newer. */
  lemma PublishedGoes(before: map<string, Entry>, name: string, backup: Entry, after: map<string, Entry>, keep: nat)
    requires name !in before && Verified(name, backup) && Retained(before[name := backup], after, keep)
    ensures |Newer(before, CreatedAt(name, backup))| >= keep ==> name !in after
  {
    var all := before[name := backup];
    var newer := Newer(before, CreatedAt(name, backup));
    if name in after {
      assert name in VerifiedNames(after);
      forall gone | gone in newer
        ensures gone in VerifiedNames(after) - {name}
      {
        assert gone != name && all[gone] == before[gone] && gone in VerifiedNames(all);
        KeptIsAsNew(all, after, keep, name, gone);
      }
      Subsets(newer, VerifiedNames(after) - {name});
    }
  }
}
