/** The inputs of a package, and what they need. */
module PackageInputs {
  import opened Prelude
  import opened PackageGraph
  import opened PackageBudget
  import opened PackageDiscovery

  /** A dependency of a selected workspace; an optional one may be missing. */
  datatype Wanted = Wanted(path: Path, optional: bool)

  /** Where discovery starts. */
  datatype Roots = Roots(files: seq<Path>, dependencies: seq<Wanted>, directories: seq<Path>)

  predicate IsRoot(w: World, roots: Roots, item: Item) {
    match item
    case FileItem(p) => p in roots.files
    case LinkItem(p) => p in w.nodes && w.nodes[p].Link? && exists i | 0 <= i < |roots.dependencies| :: roots.dependencies[i].path == p
    case DirItem(p) => p in roots.directories
    case PackageItem(_) => false
  }

  ghost predicate RootsIn(w: World, roots: Roots, s: set<Item>) {
    forall item | IsRoot(w, roots, item) :: item in s
  }

  /** The state between two roots. */
  ghost predicate Between(inputs: Inventory, bound: set<Item>)
    reads inputs
  {
    Held(inputs.world, inputs.St(), bound) && ClosedExcept(inputs.world, inputs.recorded, {})
  }

  /** The first roots are recorded. */
  predicate FilesIn(names: seq<Path>, n: nat, s: set<Item>)
    requires n <= |names|
  {
    forall k | 0 <= k < n :: FileItem(names[k]) in s
  }

  lemma FilesGrow(names: seq<Path>, n: nat, before: set<Item>, after: set<Item>)
    requires n < |names| && FilesIn(names, n, before) && before <= after && FileItem(names[n]) in after
    ensures FilesIn(names, n + 1, after)
  {
  }

  method AddFiles(inputs: Inventory, names: seq<Path>, ghost bound: set<Item>) returns (error: Option<string>)
    requires Between(inputs, bound) && FilesIn(names, |names|, bound)
    modifies inputs
    ensures error.None? ==> Between(inputs, bound) && old(inputs.recorded) <= inputs.recorded
    ensures error.Some? ==> !Fits(inputs.world, bound)
    ensures error.None? ==> FilesIn(names, |names|, inputs.recorded)
  {
    var i := 0;
    while i < |names|
      invariant 0 <= i <= |names| && Between(inputs, bound) && old(inputs.recorded) <= inputs.recorded
      invariant FilesIn(names, i, inputs.recorded)
    {
      ghost var before := inputs.recorded;
      error := inputs.AddFile(names[i], {}, bound);
      if error.Some? {
        return;
      }
      FilesGrow(names, i, before, inputs.recorded);
      i := i + 1;
    }
    return None;
  }

  /** The dependency is recorded as a link; only an optional one may be missing. */
  predicate DependencyIn(w: World, d: Wanted, s: set<Item>) {
    LinkItem(d.path) in s || (d.optional && d.path !in w.nodes)
  }

  predicate DependenciesIn(w: World, wanted: seq<Wanted>, n: nat, s: set<Item>)
    requires n <= |wanted|
  {
    forall k | 0 <= k < n :: DependencyIn(w, wanted[k], s)
  }

  lemma DependenciesGrow(w: World, wanted: seq<Wanted>, n: nat, before: set<Item>, after: set<Item>)
    requires n < |wanted| && DependenciesIn(w, wanted, n, before) && before <= after && DependencyIn(w, wanted[n], after)
    ensures DependenciesIn(w, wanted, n + 1, after)
  {
  }

  predicate LinksBounded(w: World, wanted: seq<Wanted>, bound: set<Item>) {
    forall k | 0 <= k < |wanted| ::
      wanted[k].path in w.nodes && w.nodes[wanted[k].path].Link? ==> LinkItem(wanted[k].path) in bound
  }

  predicate Available(w: World, d: Wanted) {
    if d.path in w.nodes then w.nodes[d.path].Link? else d.optional
  }

  predicate AllAvailable(w: World, wanted: seq<Wanted>) {
    forall k | 0 <= k < |wanted| :: Available(w, wanted[k])
  }

  /** One dependency of a selected workspace. */
  method AddDependency(inputs: Inventory, d: Wanted, ghost bound: set<Item>) returns (error: Option<string>)
    requires Between(inputs, bound) && Consistent(inputs.world) && Closed(inputs.world, bound)
    requires d.path in inputs.world.nodes && inputs.world.nodes[d.path].Link? ==> LinkItem(d.path) in bound
    modifies inputs
    ensures error.None? ==> Between(inputs, bound) && old(inputs.recorded) <= inputs.recorded
    ensures error.Some? ==> !Fits(inputs.world, bound) || !Available(inputs.world, d)
    ensures error.None? ==> DependencyIn(inputs.world, d, inputs.recorded)
  {
    if d.path !in inputs.world.nodes && d.optional {
      return None;
    }
    if d.path !in inputs.world.nodes || !inputs.world.nodes[d.path].Link? {
      return Some("PACKAGE_PNPM_DEPENDENCY_LINK_MISSING");
    }
    error := inputs.FollowLink(d.path, {}, bound);
  }

  method AddDependencies(inputs: Inventory, wanted: seq<Wanted>, ghost bound: set<Item>) returns (error: Option<string>)
    requires Between(inputs, bound) && Consistent(inputs.world) && Closed(inputs.world, bound)
    requires LinksBounded(inputs.world, wanted, bound)
    modifies inputs
    ensures error.None? ==> Between(inputs, bound) && old(inputs.recorded) <= inputs.recorded
    ensures error.Some? ==> !Fits(inputs.world, bound) || !AllAvailable(inputs.world, wanted)
    ensures error.None? ==> DependenciesIn(inputs.world, wanted, |wanted|, inputs.recorded)
  {
    var i := 0;
    while i < |wanted|
      invariant 0 <= i <= |wanted| && Between(inputs, bound) && old(inputs.recorded) <= inputs.recorded
      invariant DependenciesIn(inputs.world, wanted, i, inputs.recorded)
    {
      ghost var before := inputs.recorded;
      error := AddDependency(inputs, wanted[i], bound);
      if error.Some? {
        return;
      }
      DependenciesGrow(inputs.world, wanted, i, before, inputs.recorded);
      i := i + 1;
    }
    return None;
  }

  predicate DirectoriesIn(paths: seq<Path>, n: nat, s: set<Item>)
    requires n <= |paths|
  {
    forall k | 0 <= k < n :: DirItem(paths[k]) in s
  }

  lemma DirectoriesGrow(paths: seq<Path>, n: nat, before: set<Item>, after: set<Item>)
    requires n < |paths| && DirectoriesIn(paths, n, before) && before <= after && DirItem(paths[n]) in after
    ensures DirectoriesIn(paths, n + 1, after)
  {
  }

  method AddDirectories(inputs: Inventory, paths: seq<Path>, ghost bound: set<Item>) returns (error: Option<string>)
    requires Between(inputs, bound) && Consistent(inputs.world) && Closed(inputs.world, bound)
    requires DirectoriesIn(paths, |paths|, bound)
    modifies inputs
    ensures error.None? ==> Between(inputs, bound) && old(inputs.recorded) <= inputs.recorded
    ensures error.Some? ==> !Fits(inputs.world, bound)
    ensures error.None? ==> DirectoriesIn(paths, |paths|, inputs.recorded)
  {
    var i := 0;
    while i < |paths|
      invariant 0 <= i <= |paths| && Between(inputs, bound) && old(inputs.recorded) <= inputs.recorded
      invariant DirectoriesIn(paths, i, inputs.recorded)
    {
      ghost var before := inputs.recorded;
      error := inputs.Directory(paths[i], {}, bound);
      if error.Some? {
        return;
      }
      DirectoriesGrow(paths, i, before, inputs.recorded);
      i := i + 1;
    }
    return None;
  }

  lemma RootsBounded(w: World, roots: Roots, bound: set<Item>)
    requires RootsIn(w, roots, bound)
    ensures FilesIn(roots.files, |roots.files|, bound) && DirectoriesIn(roots.directories, |roots.directories|, bound)
    ensures LinksBounded(w, roots.dependencies, bound)
  {
    assert forall p | p in roots.files :: IsRoot(w, roots, FileItem(p));
    assert forall p | p in roots.directories :: IsRoot(w, roots, DirItem(p));
    forall k | 0 <= k < |roots.dependencies| && roots.dependencies[k].path in w.nodes && w.nodes[roots.dependencies[k].path].Link?
      ensures LinkItem(roots.dependencies[k].path) in bound
    {
      assert IsRoot(w, roots, LinkItem(roots.dependencies[k].path));
    }
  }

  lemma RootsRecorded(w: World, roots: Roots, s: set<Item>)
    requires FilesIn(roots.files, |roots.files|, s) && DirectoriesIn(roots.directories, |roots.directories|, s)
    requires DependenciesIn(w, roots.dependencies, |roots.dependencies|, s)
    ensures RootsIn(w, roots, s)
  {
    forall item | IsRoot(w, roots, item)
      ensures item in s
    {
      if item.LinkItem? {
        var k :| 0 <= k < |roots.dependencies| && roots.dependencies[k].path == item.path;
        assert DependencyIn(w, roots.dependencies[k], s);
      }
    }
  }

  /** A set that has the roots and everything that they need. */
  ghost predicate Around(w: World, roots: Roots, s: set<Item>) {
    Closed(w, s) && RootsIn(w, roots, s)
  }

  /** Everything that could be needed at all. */
  ghost function Universe(w: World, roots: Roots): set<Item> {
    (set p | p in w.nodes :: LinkItem(p)) + (set p | p in w.nodes :: DirItem(p)) +
    (set p | p in w.nodes :: FileItem(p)) + (set p | p in w.nodes :: PackageItem(p)) +
    (set p | p in w.nodes && HasTarget(w, p) :: DirItem(StoreDirectory(w.nodes[p].resolved.value))) +
    (set p | p in w.nodes && HasTarget(w, p) :: PackageItem(StorePackage(w.nodes[p].resolved.value))) +
    (set p | p in roots.files :: FileItem(p)) + (set p | p in roots.directories :: DirItem(p))
  }

  lemma UniverseIsAround(w: World, roots: Roots)
    ensures Around(w, roots, Universe(w, roots))
  {
    forall a, b | a in Universe(w, roots) && Needs(w, a, b)
      ensures b in Universe(w, roots)
    {
      assert a.LinkItem? ==> HasTarget(w, a.path);
    }
  }

  /** What every set around the roots has. */
  ghost function Required(w: World, roots: Roots): set<Item> {
    set item | item in Universe(w, roots) && forall s | Around(w, roots, s) :: item in s
  }

  /** There is a least set around the roots. */
  lemma RequiredIsLeast(w: World, roots: Roots)
    ensures Around(w, roots, Required(w, roots))
    ensures forall s | Around(w, roots, s) :: Required(w, roots) <= s
  {
    UniverseIsAround(w, roots);
    forall a, b | a in Required(w, roots) && Needs(w, a, b)
      ensures b in Required(w, roots)
    {
      forall s | Around(w, roots, s)
        ensures b in s
      {
        InBound(w, s, a, b);
      }
    }
  }

  lemma RootsAvailable(w: World, s: State, wanted: seq<Wanted>)
    requires Faithful(w, s) && Tied(s) && DependenciesIn(w, wanted, |wanted|, s.recorded)
    ensures AllAvailable(w, wanted)
  {
    forall k | 0 <= k < |wanted|
      ensures Available(w, wanted[k])
    {
      assert DependencyIn(w, wanted[k], s.recorded);
      NotYet(s, LinkItem(wanted[k].path));
    }
  }

  /** A discovery that has come to its end has recorded what is required, and that fits. */
  lemma DiscoveryEnds(w: World, roots: Roots, s: State)
    requires Held(w, s, Required(w, roots)) && ClosedExcept(w, s.recorded, {}) && RootsIn(w, roots, s.recorded)
    ensures s.recorded == Required(w, roots) && Fits(w, Required(w, roots))
  {
    RequiredIsLeast(w, roots);
    assert Around(w, roots, s.recorded);
    RecordedFits(w, s);
  }

  /**
   * The discovery in `package_release`: it succeeds exactly when what the roots require fits and every
   * dependency of a selected workspace is there, and then it has recorded just what they require.
   */
  method Discover(w: World, roots: Roots) returns (inputs: Inventory, error: Option<string>)
    requires Consistent(w)
    ensures inputs.world == w
    ensures error.None? <==> Fits(w, Required(w, roots)) && AllAvailable(w, roots.dependencies)
    ensures error.None? ==> Recorded(w, inputs.St()) && inputs.recorded == Required(w, roots)
    ensures error.None? ==> ClosedExcept(w, inputs.recorded, {})
  {
    inputs := new Inventory(w);
    ghost var bound := Required(w, roots);
    RequiredIsLeast(w, roots);
    RootsBounded(w, roots, bound);
    error := AddFiles(inputs, roots.files, bound);
    if error.Some? {
      return;
    }
    error := AddDependencies(inputs, roots.dependencies, bound);
    if error.Some? {
      return;
    }
    error := AddDirectories(inputs, roots.directories, bound);
    if error.None? {
      RootsRecorded(w, roots, inputs.recorded);
      RootsAvailable(w, inputs.St(), roots.dependencies);
      DiscoveryEnds(w, roots, inputs.St());
    }
  }

  /**
   * Every recorded link leads to a selected workspace, or to a fully walked store directory with a
   * package whose dependencies, as far as it cannot do without them, are recorded too.
   */
  lemma RecordedLinksResolve(w: World, s: set<Item>, link: Path)
    requires ClosedExcept(w, s, {}) && LinkItem(link) in s
    ensures link in w.nodes && w.nodes[link].Link? && w.nodes[link].resolved.Some?
    ensures var place := w.nodes[link].resolved.value;
            place in w.workspaces ||
            (|place| > 2 && DirItem([place[0], place[1], place[2]]) in s
             && exists package | IsPackageOf(place, package) :: PackageComplete(w, s, package))
  {
    assert Sound(w, LinkItem(link));
    var place := w.nodes[link].resolved.value;
    if place !in w.workspaces {
      assert Needs(w, LinkItem(link), DirItem(StoreDirectory(place)));
      assert Needs(w, LinkItem(link), PackageItem(StorePackage(place)));
      PackagesAreComplete(w, s, StorePackage(place));
      StorePlaces(place, StorePackage(place));
    }
  }

  /** A dependency is recorded as the link that it is found as, or as a walked directory with a package in it. */
  ghost predicate EntryRecorded(w: World, s: set<Item>, entry: Path) {
    LinkItem(entry) in s || (DirItem(entry) in s && PackageItem(entry) in s)
  }

  /** The package is recorded, and each dependency with its nearest entry; one without any is optional. */
  ghost predicate PackageComplete(w: World, s: set<Item>, package: Path) {
    && PackageItem(package) in s && package in w.manifests
    && (forall d, entry | d in w.manifests[package] && Resolves(w, package, d.name, entry) :: EntryRecorded(w, s, entry))
    && (forall d | d in w.manifests[package] && Unresolved(w, package, d.name) :: d.optional)
  }

  lemma PackagesAreComplete(w: World, s: set<Item>, package: Path)
    requires ClosedExcept(w, s, {}) && PackageItem(package) in s
    ensures PackageComplete(w, s, package)
  {
    assert Sound(w, PackageItem(package));
    forall d, entry | d in w.manifests[package] && Resolves(w, package, d.name, entry)
      ensures EntryRecorded(w, s, entry)
    {
      FindsNearest(w, package, d.name);
      var i :| 0 <= i < |w.manifests[package]| && w.manifests[package][i] == d;
      DependencyRecorded(w, s, package, i);
    }
    forall d | d in w.manifests[package] && Unresolved(w, package, d.name)
      ensures d.optional
    {
      FindsNearest(w, package, d.name);
      var i :| 0 <= i < |w.manifests[package]| && w.manifests[package][i] == d;
      assert DependencyMet(w, package, w.manifests[package][i]);
    }
  }

  lemma DependencyRecorded(w: World, s: set<Item>, package: Path, i: nat)
    requires ClosedExcept(w, s, {}) && PackageItem(package) in s && package in w.manifests && i < |w.manifests[package]|
    requires Find(w, package, w.manifests[package][i].name).Some?
    ensures var found := Find(w, package, w.manifests[package][i].name).value;
            EntryRecorded(w, s, found)
  {
    assert Sound(w, PackageItem(package));
    var found := Find(w, package, w.manifests[package][i].name).value;
    assert DependencyMet(w, package, w.manifests[package][i]);
    if w.nodes[found].Link? {
      assert Needs(w, PackageItem(package), LinkItem(found));
    } else {
      assert Needs(w, PackageItem(package), DirItem(found));
      assert Needs(w, PackageItem(package), PackageItem(found));
    }
  }
}
