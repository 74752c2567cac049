/** What discovery records and refuses. */
module PackageContents {
  import opened Prelude
  import opened PackageGraph
  import opened PackageBudget
  import opened PackageDiscovery
  import opened PackageInputs
  import opened PosixPath
  import opened Sums

  /** The path is an entry of a recorded directory, and not the cache of a build directory. */
  ghost predicate InDirectory(w: World, s: set<Item>, p: Path) {
    exists d, name | DirItem(d) in s && p == d + [name] ::
      d in w.nodes && w.nodes[d].Dir? && name in w.nodes[d].names && (d in w.cacheless ==> name != "cache")
  }

  /** A recorded package resolves a dependency to this entry. */
  ghost predicate DependedOn(w: World, s: set<Item>, entry: Path) {
    exists package, d | PackageItem(package) in s && package in w.manifests && d in w.manifests[package] ::
      Resolves(w, package, d.name, entry)
  }

  /** A recorded link leads to this place of the store. */
  ghost predicate LinkedTo(w: World, s: set<Item>, link: Path, place: Path) {
    LinkItem(link) in s && link in w.nodes && w.nodes[link].Link? && w.nodes[link].resolved == Some(place)
    && place !in w.workspaces
  }

  /** Why something is recorded. */
  ghost predicate Reason(w: World, roots: Roots, s: set<Item>, item: Item) {
    match item
    case FileItem(p) => p in roots.files || InDirectory(w, s, p)
    case LinkItem(p) =>
      && p in w.nodes && w.nodes[p].Link?
      && ((exists root | root in roots.dependencies :: root.path == p) || InDirectory(w, s, p) || DependedOn(w, s, p))
    case DirItem(p) =>
      || p in roots.directories
      || (p in w.nodes && w.nodes[p].Dir? && (InDirectory(w, s, p) || DependedOn(w, s, p)))
      || exists link, place, package | LinkedTo(w, s, link, place) && IsPackageOf(place, package) ::
           p == [place[0], place[1], place[2]]
    case PackageItem(p) =>
      || (p in w.nodes && w.nodes[p].Dir? && DependedOn(w, s, p))
      || exists link, place | LinkedTo(w, s, link, place) :: IsPackageOf(place, p)
  }

  /** A least set has nothing that neither the roots nor another member ask for. */
  lemma SomethingNeedsIt(w: World, roots: Roots, item: Item) returns (a: Item)
    requires item in Required(w, roots) && !IsRoot(w, roots, item)
    ensures a in Required(w, roots) && a != item && Needs(w, a, item)
  {
    RequiredIsLeast(w, roots);
    var less := Required(w, roots) - {item};
    if forall a | a in less :: !Needs(w, a, item) {
      assert Around(w, roots, less);
      assert false;
    }
    a :| a in less && Needs(w, a, item);
  }

  lemma EntryReason(w: World, roots: Roots, s: set<Item>, d: Path, item: Item)
    requires DirItem(d) in s && IsEntry(w, d, item)
    ensures Reason(w, roots, s, item)
  {
    var name :| name in w.nodes[d].names && Taken(w, d, name) && d + [name] in w.nodes && item == EntryItem(w, d + [name]);
    assert InDirectory(w, s, item.path);
  }

  lemma DependencyReason(w: World, roots: Roots, s: set<Item>, package: Path, item: Item)
    requires PackageItem(package) in s && IsDependency(w, package, item)
    ensures Reason(w, roots, s, item)
  {
    var i :| 0 <= i < |w.manifests[package]|
             && Find(w, package, w.manifests[package][i].name).Some?
             && Provides(w, Find(w, package, w.manifests[package][i].name).value, item);
    FindsNearest(w, package, w.manifests[package][i].name);
    assert w.manifests[package][i] in w.manifests[package];
    assert DependedOn(w, s, item.path);
  }

  lemma TargetReason(w: World, roots: Roots, s: set<Item>, link: Path, item: Item)
    requires LinkItem(link) in s && IsTarget(w, link, item)
    ensures Reason(w, roots, s, item)
  {
    var place := w.nodes[link].resolved.value;
    StorePlaces(place, StorePackage(place));
    assert LinkedTo(w, s, link, place);
  }

  /** Nothing is recorded without a reason. */
  lemma NothingUnneeded(w: World, roots: Roots, item: Item)
    requires item in Required(w, roots)
    ensures Reason(w, roots, Required(w, roots), item)
  {
    if !IsRoot(w, roots, item) {
      var a := SomethingNeedsIt(w, roots, item);
      match a
      case LinkItem(p) => TargetReason(w, roots, Required(w, roots), p, item);
      case DirItem(p) => EntryReason(w, roots, Required(w, roots), p, item);
      case PackageItem(p) => DependencyReason(w, roots, Required(w, roots), p, item);
      case FileItem(_) =>
    } else if item.LinkItem? {
      var i :| 0 <= i < |roots.dependencies| && roots.dependencies[i].path == item.path;
      assert roots.dependencies[i] in roots.dependencies;
    }
  }

  /** A recorded directory is recorded whole, but for the cache of a build directory. */
  lemma DirectoriesAreWhole(w: World, s: set<Item>, d: Path, name: string)
    requires ClosedExcept(w, s, {}) && DirItem(d) in s
    requires d in w.nodes && w.nodes[d].Dir? && name in w.nodes[d].names && d + [name] in w.nodes
    requires d in w.cacheless ==> name != "cache"
    ensures var p := d + [name];
            if w.nodes[p].Link? then LinkItem(p) in s else if w.nodes[p].Dir? then DirItem(p) in s else FileItem(p) in s
  {
    assert Needs(w, DirItem(d), EntryItem(w, d + [name]));
  }

  /** Every part is a name that stands for itself, of printable characters. */
  predicate IsSafe(p: Path) {
    |p| > 0 && forall i | 0 <= i < |p| :: IsName(p[i])
  }

  predicate IsName(part: string) {
    && part != "" && part != "." && part != ".." && forall i | 0 <= i < |part| :: IsPrinted(part[i]) && part[i] != '/'
  }

  predicate IsPrinted(c: char) {
    ' ' <= c && c != '\U{007F}'
  }

  /** What is refused of a single item. */
  ghost predicate ItemFits(w: World, item: Item) {
    match item
    case FileItem(p) => IsSafe(p) && |p| <= 64 && p in w.nodes && w.nodes[p].File? && w.nodes[p].size <= 268435456
    case DirItem(p) => IsSafe(p) && |p| <= 64 && p in w.nodes && w.nodes[p].Dir?
    case LinkItem(p) => IsSafe(p) && |p| <= 64 && p in w.nodes && w.nodes[p].Link? && LinkFits(w, w.nodes[p])
    case PackageItem(p) => p in w.manifests && forall d | d in w.manifests[p] :: DependencyFits(w, p, d)
  }

  /** A short relative target without control characters, which leads to a workspace or into the store. */
  ghost predicate LinkFits(w: World, node: Node)
    requires node.Link?
  {
    && node.targetBytes <= 4096 && !("/" <= node.target)
    && (forall i | 0 <= i < |node.target| :: IsPrinted(node.target[i]))
    && node.resolved.Some?
    && (node.resolved.value in w.workspaces || exists package :: IsPackageOf(node.resolved.value, package))
  }

  /** The nearest entry is a link or a directory, or there is none and the dependency is optional. */
  ghost predicate DependencyFits(w: World, package: Path, d: Dependency) {
    || (Unresolved(w, package, d.name) && d.optional)
    || exists entry :: Resolves(w, package, d.name, entry) && (w.nodes[entry].Link? || w.nodes[entry].Dir?)
  }

  lemma SafeParts(p: Path)
    ensures SafePath(p) <==> IsSafe(p)
  {
    forall i | 0 <= i < |p|
      ensures IsName(p[i]) <==> p[i] != "" && p[i] != "." && p[i] != ".." && '/' !in p[i] && NoControl(p[i])
    {
    }
  }

  lemma TargetFits(w: World, node: Node)
    requires node.Link?
    ensures LinkFits(w, node) <==>
              && PlainTarget(node.target, node.targetBytes) && node.resolved.Some?
              && (node.resolved.value in w.workspaces || InStore(node.resolved.value))
  {
    if node.resolved.Some? {
      var place := node.resolved.value;
      if InStore(place) {
        StorePlaces(place, StorePackage(place));
      }
      forall package
        ensures IsPackageOf(place, package) ==> InStore(place)
      {
        StorePlaces(place, package);
      }
    }
  }

  lemma FoundFits(w: World, package: Path, d: Dependency)
    ensures DependencyMet(w, package, d) <==> DependencyFits(w, package, d)
  {
    FindsNearest(w, package, d.name);
  }

  lemma AcceptableExactly(w: World, item: Item)
    ensures Acceptable(w, item) <==> ItemFits(w, item)
  {
    match item
    case FileItem(p) => SafeParts(p);
    case DirItem(p) => SafeParts(p);
    case LinkItem(p) =>
      SafeParts(p);
      if p in w.nodes && w.nodes[p].Link? {
        TargetFits(w, w.nodes[p]);
      }
    case PackageItem(p) =>
      if p in w.manifests {
        forall i | 0 <= i < |w.manifests[p]|
          ensures DependencyMet(w, p, w.manifests[p][i]) <==> DependencyFits(w, p, w.manifests[p][i])
        {
          FoundFits(w, p, w.manifests[p][i]);
        }
      }
  }

  /** What the roots require fits exactly when every item does and the numbers are within the limits. */
  lemma FitsInNumbers(w: World, bound: set<Item>)
    ensures Fits(w, bound) <==>
              && (forall item | item in bound :: ItemFits(w, item))
              && |Ancestors(bound)| <= 80000 && |Leaves(bound)| <= 100000 && Total(Sizes(w, bound)) <= w.maxBytes
  {
    forall item | item in bound
      ensures Acceptable(w, item) <==> ItemFits(w, item)
    {
      AcceptableExactly(w, item);
    }
  }
}
