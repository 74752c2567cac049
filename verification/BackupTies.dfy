/** When the fate of a new backup depends on the order of the directory. */
module BackupTies {
  import opened SetSizes
  import opened StableSort
  import opened UtcTimestamps
  import opened BackupRetention

  /** The verified backups from a time on. */
  ghost function FromTime(entries: map<string, Entry>, bound: int): set<string> {
    set name | name in VerifiedNames(entries) && TimeOf(CreatedAt(name, entries[name])) >= bound
  }

  /** How many backups at the front of a list are from that time on. */
  function Lead(list: seq<Dated>, bound: int): (n: nat)
    ensures n <= |list| && (n < |list| ==> TimeKey()(list[n]) < bound)
    ensures forall i | 0 <= i < n :: TimeKey()(list[i]) >= bound
  {
    if list == [] || TimeKey()(list[0]) < bound then 0 else 1 + Lead(list[1..], bound)
  }

  lemma LeadCounts(valid: seq<Dated>, entries: map<string, Entry>, bound: int)
    requires IsListing(valid, entries)
    ensures Lead(valid, bound) == |FromTime(entries, bound)|
  {
    var n := Lead(valid, bound);
    FirstNames(valid, entries, n);
    forall name
      ensures name in NamesOf(valid[..n]) <==> name in FromTime(entries, bound)
    {
      LeadHas(valid, entries, bound, name);
    }
    assert NamesOf(valid[..n]) == FromTime(entries, bound);
  }

  lemma LeadHas(valid: seq<Dated>, entries: map<string, Entry>, bound: int, name: string)
    requires IsListing(valid, entries)
    ensures name in NamesOf(valid[..Lead(valid, bound)]) <==> name in FromTime(entries, bound)
  {
    var n := Lead(valid, bound);
    if name in VerifiedNames(entries) {
      ListingCovers(valid, entries, name);
      var i :| 0 <= i < |valid| && valid[i].name == name;
      ListingMeans(valid, entries, i);
      assert i < n ==> valid[..n][i] == valid[i];
      assert i >= n ==> TimeKey()(valid[n]) >= TimeKey()(valid[i]) by {
        assert i > n ==> TimeKey()(valid[n]) >= TimeKey()(valid[i]);
      }
    } else if name in NamesOf(valid[..n]) {
      var i :| 0 <= i < n && valid[i].name == name;
      ListingMeans(valid, entries, i);
    }
  }

  function Inserted(list: seq<Dated>, i: nat, d: Dated): seq<Dated>
    requires i <= |list|
  {
    list[..i] + [d] + list[i..]
  }

  lemma InsertedHas(list: seq<Dated>, i: nat, d: Dated)
    requires i <= |list|
    ensures multiset(Inserted(list, i, d)) == multiset(list) + multiset{d}
    ensures Inserted(list, i, d)[i] == d
  {
    assert list == list[..i] + list[i..];
  }

  lemma InsertedDescends(list: seq<Dated>, bound: int, d: Dated)
    requires Descending(list, TimeKey()) && TimeKey()(d) <= bound <= TimeKey()(d) + 1
    ensures Descending(Inserted(list, Lead(list, bound), d), TimeKey())
  {
    InsertedInOrder(list, Lead(list, bound), d, TimeKey());
  }

  lemma InsertedInOrder<T>(list: seq<T>, n: nat, x: T, key: T -> int)
    requires n <= |list| && Descending(list, key)
    requires n > 0 ==> key(list[n - 1]) >= key(x)
    requires n < |list| ==> key(list[n]) <= key(x)
    ensures Descending(list[..n] + [x] + list[n..], key)
  {
    var all := list[..n] + [x] + list[n..];
    forall i, j | 0 <= i < j < |all|
      ensures key(all[i]) >= key(all[j])
    {
      PlaceOf(list, n, x, i);
      PlaceOf(list, n, x, j);
      assert i < n - 1 ==> key(list[i]) >= key(list[n - 1]);
      assert j > n + 1 ==> key(list[n]) >= key(list[j - 1]);
    }
  }

  lemma PlaceOf<T>(list: seq<T>, n: nat, x: T, i: nat)
    requires n <= |list| && i <= |list|
    ensures (list[..n] + [x] + list[n..])[i] == if i < n then list[i] else if i == n then x else list[i - 1]
  {
  }

  lemma OneMoreDated(before: map<string, Entry>, name: string, backup: Entry)
    requires name !in before && Verified(name, backup)
    ensures var d := Dated(CreatedAt(name, backup), name);
            d !in DatedSet(before) && DatedSet(before[name := backup]) == DatedSet(before) + {d}
  {
    var all := before[name := backup];
    assert VerifiedNames(all) == VerifiedNames(before) + {name};
    assert forall other | other in VerifiedNames(before) :: other != name && all[other] == before[other];
  }

  /** The new backup may be listed in front of the others of its second, or behind them. */
  lemma InsertedIsListing(valid: seq<Dated>, before: map<string, Entry>, name: string, backup: Entry, bound: int)
    requires IsListing(valid, before) && name !in before && Verified(name, backup)
    requires TimeOf(CreatedAt(name, backup)) <= bound <= TimeOf(CreatedAt(name, backup)) + 1
    ensures IsListing(Inserted(valid, Lead(valid, bound), Dated(CreatedAt(name, backup), name)), before[name := backup])
  {
    var d := Dated(CreatedAt(name, backup), name);
    InsertedHas(valid, Lead(valid, bound), d);
    InsertedDescends(valid, bound, d);
    OneMoreDated(before, name, backup);
    AddedOnce(DatedSet(before), d);
  }

  lemma AddedOnce<T>(s: set<T>, x: T)
    requires x !in s
    ensures multiset(s + {x}) == multiset(s) + multiset{x}
  {
  }

  /** What retention leaves if the new backup is listed in that place. */
  lemma Listed(valid: seq<Dated>, before: map<string, Entry>, name: string, backup: Entry, bound: int, keep: nat)
    returns (after: map<string, Entry>)
    requires IsListing(valid, before) && name !in before && Verified(name, backup)
    requires TimeOf(CreatedAt(name, backup)) <= bound <= TimeOf(CreatedAt(name, backup)) + 1
    ensures Retained(before[name := backup], after, keep)
    ensures name in after <==> |FromTime(before, bound)| < keep
  {
    var i, d, all := Lead(valid, bound), Dated(CreatedAt(name, backup), name), before[name := backup];
    var listing := Inserted(valid, i, d);
    LeadCounts(valid, before, bound);
    InsertedHas(valid, i, d);
    InsertedIsListing(valid, before, name, backup, bound);
    var k := if keep <= |listing| then keep else |listing|;
    DroppingRetains(listing, all, keep);
    after := Without(all, listing[k..]);
    if i < k {
      StillThere(listing, all, k, i);
    } else {
      Dropped(listing, k, i);
    }
  }

  lemma {:induction false} Enumerated(s: set<Dated>) returns (list: seq<Dated>)
    ensures multiset(list) == multiset(s)
  {
    if s == {} {
      list := [];
    } else {
      var d :| d in s;
      var rest := Enumerated(s - {d});
      list := rest + [d];
      AddedOnce(s - {d}, d);
      assert s == s - {d} + {d};
    }
  }

  lemma ListingExists(entries: map<string, Entry>) returns (valid: seq<Dated>)
    ensures IsListing(valid, entries)
  {
    var list := Enumerated(DatedSet(entries));
    valid := Sorted(list, NewerThan());
    NewestFirst(list);
  }

  /**
   * A published backup stays whatever the order of the directory if and only if fewer than `keep` others
   * are as new as it, and goes whatever the order if and only if `keep` others are newer. Between the two,
   * among backups of the same second, the order decides.
   */
  lemma OrderDecidesTies(before: map<string, Entry>, name: string, backup: Entry, keep: nat)
    requires name !in before && Verified(name, backup)
    ensures |AsNew(before, CreatedAt(name, backup))| < keep
       <==> forall after | Retained(before[name := backup], after, keep) :: name in after
    ensures |Newer(before, CreatedAt(name, backup))| >= keep
       <==> forall after | Retained(before[name := backup], after, keep) :: name !in after
  {
    var time := CreatedAt(name, backup);
    var valid := ListingExists(before);
    assert AsNew(before, time) == FromTime(before, TimeOf(time));
    assert Newer(before, time) == FromTime(before, TimeOf(time) + 1);
    var behind := Listed(valid, before, name, backup, TimeOf(time), keep);
    var ahead := Listed(valid, before, name, backup, TimeOf(time) + 1, keep);
    forall after | Retained(before[name := backup], after, keep)
      ensures |AsNew(before, time)| < keep ==> name in after
      ensures |Newer(before, time)| >= keep ==> name !in after
    {
      PublishedStays(before, name, backup, after, keep);
      PublishedGoes(before, name, backup, after, keep);
    }
  }
}
