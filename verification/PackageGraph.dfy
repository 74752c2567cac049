/** The checkout as package discovery sees it. */
module PackageGraph {
  // Each recorded item needs others to be recorded with it.

  import opened Prelude
  import opened SetSizes

  /** The parts of a path below the checkout. */
  type Path = seq<string>

  /**
   * What `lstat` finds. A link has its target text, the length of that in bytes, and the place below the
   * checkout that it resolves to, if any.
   */
  datatype Node =
    | File(size: nat)
    | Link(target: string, targetBytes: nat, resolved: Option<Path>)
    | Dir(names: seq<string>)
    | Other

  datatype Dependency = Dependency(name: Path, optional: bool)

  /**
   * `manifests` has the dependencies of every package with a usable `package.json`; `cacheless` are the
   * build directories that are taken without their cache.
   */
  datatype World = World(nodes: map<Path, Node>, manifests: map<Path, seq<Dependency>>,
                         workspaces: set<Path>, cacheless: set<Path>, maxBytes: nat)

  /** A directory lists only what is there. */
  ghost predicate Consistent(w: World) {
    forall p, i | p in w.nodes && w.nodes[p].Dir? && 0 <= i < |w.nodes[p].names| :: p + [w.nodes[p].names[i]] in w.nodes
  }

  datatype Item = LinkItem(path: Path) | DirItem(path: Path) | PackageItem(path: Path) | FileItem(path: Path)

  /** A place inside a package of the pnpm store. */
  predicate InStore(p: Path) {
    |p| >= 5 && p[0] == "node_modules" && p[1] == ".pnpm" && p[2] != "node_modules" && p[3] == "node_modules"
  }

  function StoreDirectory(p: Path): Path
    requires InStore(p)
  {
    p[..3]
  }

  /** The package that the place is in; a scoped name has two parts. */
  function StorePackage(p: Path): Path
    requires InStore(p)
  {
    if p[4] != "" && p[4][0] == '@' && |p| >= 6 then p[..6] else p[..5]
  }

  /**
   * `node_modules/.pnpm/<version>/node_modules/<name>`, where the place may go on behind it; a name that
   * begins with an at sign has two parts, if the place has them.
   */
  predicate IsPackageOf(place: Path, package: Path) {
    && 5 <= |place| && place[0] == "node_modules" && place[1] == ".pnpm"
    && place[2] != "node_modules" && place[3] == "node_modules"
    && |package| == (if "@" <= place[4] && |place| > 5 then 6 else 5)
    && forall k | 0 <= k < |package| :: package[k] == place[k]
  }

  lemma StorePlaces(place: Path, package: Path)
    ensures InStore(place) && package == StorePackage(place) <==> IsPackageOf(place, package)
    ensures InStore(place) ==> StoreDirectory(place) == [place[0], place[1], place[2]]
  {
    if InStore(place) {
      AtSign(place[4]);
      if IsPackageOf(place, package) {
        assert package == StorePackage(place);
      }
    }
  }

  lemma AtSign(name: string)
    ensures "@" <= name <==> name != "" && name[0] == '@'
  {
  }

  /** The nearest `node_modules` entry from a directory upwards. */
  function Find(w: World, from: Path, name: Path): (found: Option<Path>)
    ensures found.Some? ==> found.value in w.nodes
    decreases |from|
  {
    if from + ["node_modules"] + name in w.nodes then Some(from + ["node_modules"] + name)
    else if from == [] then None
    else Find(w, from[..|from| - 1], name)
  }

  /** The entry that a directory, as long as it is part of the path, may have for a name. */
  function EntryAt(from: Path, k: nat, name: Path): Path
    requires k <= |from|
  {
    from[..k] + ["node_modules"] + name
  }

  /** The entry that a package resolves a name to: that of the longest directory on its path that has one. */
  ghost predicate Resolves(w: World, from: Path, name: Path, entry: Path) {
    exists k: nat | k <= |from| ::
      && entry == EntryAt(from, k, name) && entry in w.nodes
      && forall j: nat | k < j <= |from| :: EntryAt(from, j, name) !in w.nodes
  }

  /** No directory on the path has an entry for the name. */
  ghost predicate Unresolved(w: World, from: Path, name: Path) {
    forall k: nat | k <= |from| :: EntryAt(from, k, name) !in w.nodes
  }

  lemma {:induction false} FindsNearest(w: World, from: Path, name: Path)
    ensures forall entry :: Find(w, from, name) == Some(entry) <==> Resolves(w, from, name, entry)
    ensures Find(w, from, name).None? <==> Unresolved(w, from, name)
    decreases |from|
  {
    var n := |from|;
    assert EntryAt(from, n, name) == from + ["node_modules"] + name;
    if EntryAt(from, n, name) in w.nodes {
      forall entry
        ensures Resolves(w, from, name, entry) <==> entry == EntryAt(from, n, name)
      {
        OnlyNearest(w, from, name, entry);
      }
    } else if n > 0 {
      FindsNearest(w, from[..n - 1], name);
      forall entry
        ensures Resolves(w, from, name, entry) <==> Resolves(w, from[..n - 1], name, entry)
      {
        ResolvesAbove(w, from, name, entry);
      }
      UnresolvedAbove(w, from, name);
    } else {
      forall entry
        ensures !Resolves(w, from, name, entry)
      {
      }
    }
  }

  lemma OnlyNearest(w: World, from: Path, name: Path, entry: Path)
    requires EntryAt(from, |from|, name) in w.nodes
    ensures Resolves(w, from, name, entry) <==> entry == EntryAt(from, |from|, name)
  {
  }

  lemma SameEntry(from: Path, k: nat, name: Path)
    requires k < |from|
    ensures EntryAt(from[..|from| - 1], k, name) == EntryAt(from, k, name)
  {
    assert from[..|from| - 1][..k] == from[..k];
  }

  lemma ResolvesAbove(w: World, from: Path, name: Path, entry: Path)
    requires from != [] && EntryAt(from, |from|, name) !in w.nodes
    ensures Resolves(w, from, name, entry) <==> Resolves(w, from[..|from| - 1], name, entry)
  {
    var above := from[..|from| - 1];
    forall k: nat | k < |from|
      ensures EntryAt(above, k, name) == EntryAt(from, k, name)
    {
      SameEntry(from, k, name);
    }
    if Resolves(w, from, name, entry) {
      var k: nat :| k <= |from| && entry == EntryAt(from, k, name) && entry in w.nodes
                    && forall j: nat | k < j <= |from| :: EntryAt(from, j, name) !in w.nodes;
      assert entry == EntryAt(above, k, name);
    }
    if Resolves(w, above, name, entry) {
      var k: nat :| k <= |above| && entry == EntryAt(above, k, name) && entry in w.nodes
                    && forall j: nat | k < j <= |above| :: EntryAt(above, j, name) !in w.nodes;
      assert entry == EntryAt(from, k, name);
      forall j: nat | k < j <= |from|
        ensures EntryAt(from, j, name) !in w.nodes
      {
        if j < |from| {
          assert EntryAt(above, j, name) !in w.nodes;
        }
      }
    }
  }

  lemma UnresolvedAbove(w: World, from: Path, name: Path)
    requires from != [] && EntryAt(from, |from|, name) !in w.nodes
    ensures Unresolved(w, from, name) <==> Unresolved(w, from[..|from| - 1], name)
  {
    var above := from[..|from| - 1];
    forall k: nat | k < |from|
      ensures EntryAt(above, k, name) == EntryAt(from, k, name)
    {
      SameEntry(from, k, name);
    }
    if Unresolved(w, from, name) {
      forall k: nat | k <= |above|
        ensures EntryAt(above, k, name) !in w.nodes
      {
        assert EntryAt(from, k, name) !in w.nodes;
      }
    }
    if Unresolved(w, above, name) {
      forall k: nat | k <= |from|
        ensures EntryAt(from, k, name) !in w.nodes
      {
        if k < |from| {
          assert EntryAt(above, k, name) !in w.nodes;
        }
      }
    }
  }

  /** The item for an entry of a directory. */
  function EntryItem(w: World, p: Path): Item
    requires p in w.nodes
  {
    match w.nodes[p]
    case Link(_, _, _) => LinkItem(p)
    case Dir(_) => DirItem(p)
    case _ => FileItem(p)
  }

  /** The build caches are left out. */
  predicate Taken(w: World, directory: Path, name: string) {
    !(directory in w.cacheless && name == "cache")
  }

  /** `b` is one of the entries of the directory that are taken. */
  ghost predicate IsEntry(w: World, directory: Path, b: Item) {
    && directory in w.nodes && w.nodes[directory].Dir?
    && exists name | name in w.nodes[directory].names ::
         Taken(w, directory, name) && directory + [name] in w.nodes && b == EntryItem(w, directory + [name])
  }

  /** What a found dependency stands for. */
  predicate Provides(w: World, found: Path, b: Item) {
    found in w.nodes &&
    match w.nodes[found]
    case Link(_, _, _) => b == LinkItem(found)
    case Dir(_) => b == DirItem(found) || b == PackageItem(found)
    case _ => false
  }

  ghost predicate IsDependency(w: World, package: Path, b: Item) {
    && package in w.manifests
    && exists i | 0 <= i < |w.manifests[package]| ::
         var found := Find(w, package, w.manifests[package][i].name);
         found.Some? && Provides(w, found.value, b)
  }

  predicate IsTarget(w: World, link: Path, b: Item) {
    && link in w.nodes && w.nodes[link].Link? && w.nodes[link].resolved.Some?
    && var place := w.nodes[link].resolved.value;
       place !in w.workspaces && InStore(place) &&
       (b == DirItem(StoreDirectory(place)) || b == PackageItem(StorePackage(place)))
  }

  /** A package with `a` must have `b` as well. */
  ghost predicate Needs(w: World, a: Item, b: Item) {
    match a
    case LinkItem(p) => IsTarget(w, p, b)
    case DirItem(p) => IsEntry(w, p, b)
    case PackageItem(p) => IsDependency(w, p, b)
    case FileItem(_) => false
  }

  ghost predicate Closed(w: World, s: set<Item>) {
    forall a, b | a in s && Needs(w, a, b) :: b in s
  }

  /** A link leads to a workspace or into the store; a package finds every dependency that it cannot do without. */
  predicate Sound(w: World, item: Item) {
    match item
    case LinkItem(p) =>
      p in w.nodes && w.nodes[p].Link? && w.nodes[p].resolved.Some? &&
      (w.nodes[p].resolved.value in w.workspaces || InStore(w.nodes[p].resolved.value))
    case PackageItem(p) =>
      p in w.manifests && forall i | 0 <= i < |w.manifests[p]| :: DependencyMet(w, p, w.manifests[p][i])
    case _ => true
  }

  predicate DependencyMet(w: World, package: Path, d: Dependency) {
    var found := Find(w, package, d.name);
    if found.None? then d.optional else w.nodes[found.value].Link? || w.nodes[found.value].Dir?
  }

  /** Everything but the items in progress is sound and has what it needs. */
  ghost predicate ClosedExcept(w: World, s: set<Item>, open: set<Item>) {
    && (forall a | a in s && a !in open :: Sound(w, a))
    && (forall a, b | a in s && a !in open && Needs(w, a, b) :: b in s)
  }

  /** From one set of items to another: nothing lost, nothing beyond the bound, nothing missing. */
  ghost predicate Goes(w: World, before: set<Item>, after: set<Item>, open: set<Item>, bound: set<Item>) {
    before <= after <= bound && ClosedExcept(w, after, open)
  }

  lemma GoesOn(w: World, a: set<Item>, b: set<Item>, c: set<Item>, open: set<Item>, bound: set<Item>)
    requires a <= b && Goes(w, b, c, open, bound)
    ensures Goes(w, a, c, open, bound)
  {
  }

  /** A new item is in progress. */
  lemma NowOpen(w: World, s: set<Item>, item: Item, open: set<Item>, bound: set<Item>)
    requires ClosedExcept(w, s, open) && item in bound && s <= bound
    ensures Goes(w, s, s + {item}, open + {item}, bound)
  {
  }

  /** An item that has everything it needs is no longer in progress. */
  lemma NowClosed(w: World, before: set<Item>, after: set<Item>, item: Item, open: set<Item>, bound: set<Item>)
    requires Goes(w, before, after, open + {item}, bound)
    requires Sound(w, item) && forall b | Needs(w, item, b) :: b in after
    ensures Goes(w, before, after, open, bound)
  {
  }

  /** An item without needs is complete at once. */
  lemma LeafAdded(w: World, s: set<Item>, item: Item, open: set<Item>, bound: set<Item>)
    requires ClosedExcept(w, s, open) && item in bound && item.FileItem? && s <= bound
    ensures Goes(w, s, s + {item}, open, bound)
  {
  }

  lemma InBound(w: World, bound: set<Item>, a: Item, b: Item)
    requires Closed(w, bound) && a in bound && Needs(w, a, b)
    ensures b in bound
  {
  }

  /** Everything that a walk can go on from. */
  ghost function Walkable(w: World): set<Item> {
    (set p | p in w.nodes :: LinkItem(p)) + (set p | p in w.nodes :: DirItem(p)) + (set p | p in w.manifests :: PackageItem(p))
  }

  /** How much of that is not recorded yet. */
  ghost function Left(w: World, s: set<Item>): nat {
    |Walkable(w) - s|
  }

  lemma LeftShrinks(w: World, before: set<Item>, after: set<Item>)
    requires before <= after
    ensures Left(w, after) <= Left(w, before)
  {
    Subsets(Walkable(w) - after, Walkable(w) - before);
  }

  lemma LeftDrops(w: World, before: set<Item>, item: Item, after: set<Item>)
    requires item in Walkable(w) && item !in before && before + {item} <= after
    ensures Left(w, after) < Left(w, before)
  {
    Subsets(Walkable(w) - after, Walkable(w) - before - {item});
    assert Walkable(w) - before == (Walkable(w) - before - {item}) + {item};
  }
}
