/** Bounded discovery of everything that a package needs, from its roots. */
module PackageDiscovery {
  import opened Prelude
  import opened PackageGraph
  import opened PackageBudget
  import opened PosixPath
  import opened SetSizes

  class Inventory {
    const world: World
    var files: map<Path, nat>
    var links: map<Path, string>
    var visited: set<Path>
    var directories: set<Path>
    var bytes: nat
    var symlinkBytes: nat
    var checked: set<Path>
    var omittedOptional: seq<(Path, Path)>
    ghost var recorded: set<Item>

    constructor (world: World)
      ensures this.world == world && St() == State(map[], map[], {}, {}, 0, 0, {}, {}) && omittedOptional == []
      ensures Recorded(world, St()) && ClosedExcept(world, {}, {})
    {
      this.world := world;
      files, links, visited, directories, bytes, symlinkBytes, checked, omittedOptional :=
        map[], map[], {}, {}, 0, 0, {}, [];
      recorded := {};
    }

    ghost function St(): State
      reads this
    {
      State(files, links, visited, directories, bytes, symlinkBytes, checked, recorded)
    }

    /** `record_directories` for the path of an item. */
    method RecordDirectories(ghost item: Item, name: Path, includeSelf: bool, ghost bound: set<Item>)
      returns (error: Option<string>)
      requires Held(world, St(), bound) && item in bound && item.path == name && !item.PackageItem?
      requires includeSelf == item.DirItem?
      modifies this`directories
      ensures error.None? ==> Held(world, St(), bound) && Placed(directories, name) && (includeSelf ==> name in directories)
      ensures error.Some? ==> !Fits(world, bound)
    {
      if !SafePath(name) {
        return Some("PACKAGE_PATH_INVALID");
      }
      if |name| > MAX_DEPTH {
        return Some("PACKAGE_DIRECTORY_DEPTH_EXCEEDED");
      }
      var depth := if includeSelf then |name| else |name| - 1;
      var length := 1;
      while length <= depth
        invariant 1 <= length <= depth + 1 && old(directories) <= directories && |directories| <= MAX_DIRS
        invariant Covered(directories, name, length - 1) && directories <= Ancestors(bound)
      {
        AncestorOf(bound, item, length);
        directories := directories + {name[..length]};
        if |directories| > MAX_DIRS {
          Subsets(directories, Ancestors(bound));
          return Some("PACKAGE_DIRECTORY_BUDGET_EXCEEDED");
        }
        length := length + 1;
      }
      assert includeSelf ==> name[..|name|] == name;
      MoreDirectories(world, old(St()), directories);
      return None;
    }

    /** What `add_file` demands of a file before it records anything. */
    method CheckFile(name: Path, ghost bound: set<Item>) returns (error: Option<string>)
      requires Held(world, St(), bound) && FileItem(name) in bound && name !in files
      ensures error.None? ==>
                && name !in links && name in world.nodes && world.nodes[name].File? && world.nodes[name].size <= MAX_FILE_BYTES
                && bytes + world.nodes[name].size <= world.maxBytes && |files| + |links| < MAX_FILES
      ensures error.Some? ==> !Fits(world, bound)
    {
      if name in links {
        return Some("PACKAGE_INPUT_COLLISION");
      }
      if name !in world.nodes || !world.nodes[name].File? || world.nodes[name].size > MAX_FILE_BYTES {
        return Some("PACKAGE_INPUT_NOT_BOUNDED_REGULAR");
      }
      if bytes + world.nodes[name].size > world.maxBytes || |files| + |links| >= MAX_FILES {
        NoRoomForFile(world, St(), bound, name);
        return Some("PACKAGE_INPUT_BUDGET_EXCEEDED");
      }
      return None;
    }

    /** `add_file` */
    method AddFile(name: Path, ghost open: set<Item>, ghost bound: set<Item>) returns (error: Option<string>)
      requires Held(world, St(), bound) && ClosedExcept(world, recorded, open) && FileItem(name) in bound
      modifies this`files, this`bytes, this`directories, this`recorded
      ensures error.None? ==> Held(world, St(), bound) && FileItem(name) in recorded
      ensures error.None? ==> Goes(world, old(recorded), recorded, open, bound)
      ensures error.Some? ==> !Fits(world, bound)
    {
      if !SafePath(name) {
        return Some("PACKAGE_PATH_INVALID");
      }
      if name in files {
        return None;
      }
      error := CheckFile(name, bound);
      if error.Some? {
        return;
      }
      error := RecordDirectories(FileItem(name), name, false, bound);
      if error.Some? {
        return;
      }
      FileRecorded(world, St(), name, world.nodes[name].size);
      LeafAdded(world, recorded, FileItem(name), open, bound);
      PutFile(name, world.nodes[name].size);
    }

    method PutFile(name: Path, size: nat)
      modifies this`bytes, this`files, this`recorded
      ensures St() == WithFile(old(St()), name, size)
    {
      bytes := bytes + size;
      files := files[name := size];
      recorded := recorded + {FileItem(name)};
    }

    /** What `link` demands of a link before it records anything. */
    method CheckLink(path: Path, ghost bound: set<Item>) returns (error: Option<string>)
      requires Held(world, St(), bound) && LinkItem(path) in bound && path !in links
      requires path in world.nodes && world.nodes[path].Link?
      ensures error.None? ==>
                && path !in files && world.nodes[path].resolved.Some? && |files| + |links| < MAX_FILES
                && PlainTarget(world.nodes[path].target, world.nodes[path].targetBytes)
      ensures error.Some? ==> !Fits(world, bound)
    {
      if path in files {
        return Some("PACKAGE_INPUT_COLLISION");
      }
      var target := world.nodes[path].target;
      if world.nodes[path].targetBytes > MAX_LINK_TARGET_BYTES {
        return Some("PACKAGE_LINK_TARGET_TOO_LONG");
      }
      if (target != "" && target[0] == '/') || !NoControl(target) {
        return Some("PACKAGE_EXTERNAL_LINK");
      }
      if world.nodes[path].resolved.None? {
        return Some("PACKAGE_EXTERNAL_OR_BROKEN_LINK");
      }
      if |files| + |links| >= MAX_FILES {
        NotYet(St(), LinkItem(path));
        NoRoomForLink(world, St(), bound, path);
        return Some("PACKAGE_INPUT_BUDGET_EXCEEDED");
      }
      return None;
    }

    /** The first part of `link`: a link that is not recorded yet is recorded. */
    method AddLink(path: Path, ghost open: set<Item>, ghost bound: set<Item>) returns (error: Option<string>)
      requires Held(world, St(), bound) && ClosedExcept(world, recorded, open) && LinkItem(path) in bound
      requires path in world.nodes && world.nodes[path].Link? && path !in links
      modifies this
      ensures error.None? ==> Held(world, St(), bound) && recorded == old(recorded) + {LinkItem(path)}
      ensures error.None? ==> Goes(world, old(recorded), recorded, open + {LinkItem(path)}, bound)
      ensures error.None? ==> world.nodes[path].resolved.Some? && LinkItem(path) !in old(recorded)
      ensures error.Some? ==> !Fits(world, bound)
    {
      error := CheckLink(path, bound);
      if error.Some? {
        return;
      }
      error := RecordDirectories(LinkItem(path), path, false, bound);
      if error.Some? {
        return;
      }
      LinkRecorded(world, St(), path);
      NowOpen(world, recorded, LinkItem(path), open, bound);
      NotYet(St(), LinkItem(path));
      PutLink(path);
    }

    method PutLink(path: Path)
      requires path in world.nodes && world.nodes[path].Link?
      modifies this`links, this`symlinkBytes, this`recorded
      ensures St() == WithLink(world, old(St()), path)
    {
      links := links[path := world.nodes[path].target];
      symlinkBytes := symlinkBytes + world.nodes[path].targetBytes;
      recorded := recorded + {LinkItem(path)};
    }

    method PutDirectory(path: Path)
      modifies this`visited, this`recorded
      ensures St() == WithDirectory(old(St()), path)
    {
      visited := visited + {path};
      recorded := recorded + {DirItem(path)};
    }

    method PutPackage(path: Path)
      modifies this`checked, this`recorded
      ensures St() == WithPackage(old(St()), path)
    {
      checked := checked + {path};
      recorded := recorded + {PackageItem(path)};
    }

    /** The first part of `directory`: a directory that has not been visited yet is recorded. */
    method AddDirectory(path: Path, ghost open: set<Item>, ghost bound: set<Item>) returns (error: Option<string>)
      requires Held(world, St(), bound) && ClosedExcept(world, recorded, open) && DirItem(path) in bound
      requires path !in visited
      modifies this
      ensures error.None? ==> Held(world, St(), bound) && recorded == old(recorded) + {DirItem(path)}
      ensures error.None? ==> Goes(world, old(recorded), recorded, open + {DirItem(path)}, bound)
      ensures error.None? ==> path in world.nodes && world.nodes[path].Dir? && DirItem(path) !in old(recorded)
      ensures error.Some? ==> !Fits(world, bound)
    {
      if path !in world.nodes || !world.nodes[path].Dir? {
        return Some("PACKAGE_INPUT_DIRECTORY_INVALID");
      }
      error := RecordDirectories(DirItem(path), path, true, bound);
      if error.Some? {
        return;
      }
      DirectoryRecorded(world, St(), path);
      NowOpen(world, recorded, DirItem(path), open, bound);
      NotYet(St(), DirItem(path));
      PutDirectory(path);
    }

    method AddPackage(path: Path, ghost open: set<Item>, ghost bound: set<Item>)
      requires Held(world, St(), bound) && ClosedExcept(world, recorded, open) && PackageItem(path) in bound
      requires path !in checked
      modifies this
      ensures Held(world, St(), bound) && recorded == old(recorded) + {PackageItem(path)}
      ensures Goes(world, old(recorded), recorded, open + {PackageItem(path)}, bound)
      ensures PackageItem(path) !in old(recorded)
    {
      PackageRecorded(world, St(), path);
      NowOpen(world, recorded, PackageItem(path), open, bound);
      NotYet(St(), PackageItem(path));
      PutPackage(path);
    }

    /** `link`: the link, and the store directory and package behind it. */
    method FollowLink(path: Path, ghost open: set<Item>, ghost bound: set<Item>) returns (error: Option<string>)
      requires Held(world, St(), bound) && ClosedExcept(world, recorded, open)
      requires Consistent(world) && Closed(world, bound) && LinkItem(path) in bound
      requires path in world.nodes && world.nodes[path].Link?
      modifies this
      ensures error.None? ==> Held(world, St(), bound) && LinkItem(path) in recorded
      ensures error.None? ==> Goes(world, old(recorded), recorded, open, bound)
      ensures error.Some? ==> !Fits(world, bound)
      decreases Left(world, recorded), 0
    {
      ghost var item, before := LinkItem(path), recorded;
      if !SafePath(path) {
        return Some("PACKAGE_PATH_INVALID");
      }
      NotYet(St(), item);
      if path in links {
        return None;
      }
      error := AddLink(path, open, bound);
      if error.Some? {
        return;
      }
      var place := world.nodes[path].resolved.value;
      if place in world.workspaces {
        NowClosed(world, before, recorded, item, open, bound);
        return None;
      }
      if !InStore(place) {
        return Some("PACKAGE_UNAPPROVED_LINK_TARGET");
      }
      ghost var start := recorded;
      LeftDrops(world, before, item, start);
      TargetInBound(world, path, bound);
      error := DirectoryAndPackage(StoreDirectory(place), StorePackage(place), open + {item}, bound);
      if error.None? {
        GoesOn(world, before, start, recorded, open + {item}, bound);
        TargetSuffices(world, path, recorded);
        NowClosed(world, before, recorded, item, open, bound);
      }
    }

    /** A directory and a package in it. */
    method DirectoryAndPackage(path: Path, package: Path, ghost open: set<Item>, ghost bound: set<Item>)
      returns (error: Option<string>)
      requires Held(world, St(), bound) && ClosedExcept(world, recorded, open)
      requires Consistent(world) && Closed(world, bound) && DirItem(path) in bound && PackageItem(package) in bound
      modifies this
      ensures error.None? ==> Held(world, St(), bound) && Goes(world, old(recorded), recorded, open, bound)
      ensures error.None? ==> DirItem(path) in recorded && PackageItem(package) in recorded
      ensures error.Some? ==> !Fits(world, bound)
      decreases Left(world, recorded), 1
    {
      ghost var before := recorded;
      error := Directory(path, open, bound);
      if error.Some? {
        return;
      }
      ghost var middle := recorded;
      LeftShrinks(world, before, middle);
      error := ExternalPackage(package, open, bound);
      if error.None? {
        GoesOn(world, before, middle, recorded, open, bound);
      }
    }

    /** `directory`: everything below, except for a build cache. */
    method Directory(path: Path, ghost open: set<Item>, ghost bound: set<Item>) returns (error: Option<string>)
      requires Held(world, St(), bound) && ClosedExcept(world, recorded, open)
      requires Consistent(world) && Closed(world, bound) && DirItem(path) in bound
      modifies this
      ensures error.None? ==> Held(world, St(), bound) && DirItem(path) in recorded
      ensures error.None? ==> Goes(world, old(recorded), recorded, open, bound)
      ensures error.Some? ==> !Fits(world, bound)
      decreases Left(world, recorded), 0
    {
      ghost var item, before := DirItem(path), recorded;
      if !SafePath(path) {
        return Some("PACKAGE_PATH_INVALID");
      }
      NotYet(St(), item);
      if path in visited {
        return None;
      }
      error := AddDirectory(path, open, bound);
      if error.Some? {
        return;
      }
      ghost var start := recorded;
      LeftDrops(world, before, item, start);
      error := WalkEntries(path, open + {item}, bound);
      if error.None? {
        GoesOn(world, before, start, recorded, open + {item}, bound);
        EntriesSuffice(world, path, recorded);
        NowClosed(world, before, recorded, item, open, bound);
      }
    }

    /** The entries of a recorded directory. */
    method WalkEntries(path: Path, ghost open: set<Item>, ghost bound: set<Item>) returns (error: Option<string>)
      requires Held(world, St(), bound) && ClosedExcept(world, recorded, open)
      requires Consistent(world) && Closed(world, bound) && DirItem(path) in bound
      requires path in world.nodes && world.nodes[path].Dir?
      modifies this
      ensures error.None? ==> Held(world, St(), bound) && Goes(world, old(recorded), recorded, open, bound)
      ensures error.None? ==> EntriesIn(world, path, |world.nodes[path].names|, recorded)
      ensures error.Some? ==> !Fits(world, bound)
      decreases Left(world, recorded), 3
    {
      var names := world.nodes[path].names;
      ghost var before := recorded;
      var i := 0;
      while i < |names|
        invariant 0 <= i <= |names|
        invariant Held(world, St(), bound) && Goes(world, before, recorded, open, bound)
        invariant EntriesIn(world, path, i, recorded)
      {
        ghost var now := recorded;
        if Taken(world, path, names[i]) {
          EntryInBound(world, path, i, bound);
          LeftShrinks(world, before, now);
          error := Entry(path + [names[i]], open, bound);
          if error.Some? {
            return;
          }
          GoesOn(world, before, now, recorded, open, bound);
        }
        EntriesGrow(world, path, i, now, recorded);
        i := i + 1;
      }
      return None;
    }

    /** One entry of a directory. */
    method Entry(child: Path, ghost open: set<Item>, ghost bound: set<Item>) returns (error: Option<string>)
      requires Held(world, St(), bound) && ClosedExcept(world, recorded, open)
      requires Consistent(world) && Closed(world, bound) && child in world.nodes && EntryItem(world, child) in bound
      modifies this
      ensures error.None? ==> Held(world, St(), bound) && EntryItem(world, child) in recorded
      ensures error.None? ==> Goes(world, old(recorded), recorded, open, bound)
      ensures error.Some? ==> !Fits(world, bound)
      decreases Left(world, recorded), 1
    {
      if world.nodes[child].Link? {
        error := FollowLink(child, open, bound);
      } else if world.nodes[child].Dir? {
        error := Directory(child, open, bound);
      } else {
        error := AddFile(child, open, bound);
      }
    }

    /** `external_package`: every dependency of a package, each found from the package upwards. */
    method ExternalPackage(path: Path, ghost open: set<Item>, ghost bound: set<Item>) returns (error: Option<string>)
      requires Held(world, St(), bound) && ClosedExcept(world, recorded, open)
      requires Consistent(world) && Closed(world, bound) && PackageItem(path) in bound
      modifies this
      ensures error.None? ==> Held(world, St(), bound) && PackageItem(path) in recorded
      ensures error.None? ==> Goes(world, old(recorded), recorded, open, bound)
      ensures error.Some? ==> !Fits(world, bound)
      decreases Left(world, recorded), 0
    {
      ghost var item, before := PackageItem(path), recorded;
      NotYet(St(), item);
      if path in checked {
        return None;
      }
      AddPackage(path, open, bound);
      if path !in world.manifests {
        return Some("PACKAGE_DEPENDENCY_MANIFEST_INVALID");
      }
      ghost var start := recorded;
      LeftDrops(world, before, item, start);
      error := WalkDependencies(path, open + {item}, bound);
      if error.None? {
        GoesOn(world, before, start, recorded, open + {item}, bound);
        DependenciesSuffice(world, path, recorded);
        NowClosed(world, before, recorded, item, open, bound);
      }
    }

    method WalkDependencies(path: Path, ghost open: set<Item>, ghost bound: set<Item>) returns (error: Option<string>)
      requires Held(world, St(), bound) && ClosedExcept(world, recorded, open)
      requires Consistent(world) && Closed(world, bound) && PackageItem(path) in bound && path in world.manifests
      modifies this
      ensures error.None? ==> Held(world, St(), bound) && Goes(world, old(recorded), recorded, open, bound)
      ensures error.None? ==> DependenciesIn(world, path, |world.manifests[path]|, recorded)
      ensures error.Some? ==> !Fits(world, bound)
      decreases Left(world, recorded), 3
    {
      var dependencies := world.manifests[path];
      ghost var before := recorded;
      var i := 0;
      while i < |dependencies|
        invariant 0 <= i <= |dependencies|
        invariant Held(world, St(), bound) && Goes(world, before, recorded, open, bound)
        invariant DependenciesIn(world, path, i, recorded)
      {
        ghost var now := recorded;
        var found := Find(world, path, dependencies[i].name);
        if found.None? {
          if !dependencies[i].optional {
            Unmet(world, path, i, bound);
            return Some("PACKAGE_TRANSITIVE_DEPENDENCY_MISSING");
          }
          omittedOptional := omittedOptional + [(path, dependencies[i].name)];
        } else {
          LeftShrinks(world, before, now);
          DependencyInBound(world, path, i, bound);
          error := Dependency(path, i, found.value, open, bound);
          if error.Some? {
            return;
          }
          GoesOn(world, before, now, recorded, open, bound);
        }
        DependenciesGrow(world, path, i, now, recorded);
        i := i + 1;
      }
      return None;
    }

    /** One found dependency: a link, or a directory with a package in it. */
    method Dependency(ghost package: Path, ghost i: nat, found: Path, ghost open: set<Item>, ghost bound: set<Item>)
      returns (error: Option<string>)
      requires Held(world, St(), bound) && ClosedExcept(world, recorded, open)
      requires Consistent(world) && Closed(world, bound) && PackageItem(package) in bound
      requires package in world.manifests && i < |world.manifests[package]|
      requires Find(world, package, world.manifests[package][i].name) == Some(found) && ProvidedIn(world, found, bound)
      modifies this
      ensures error.None? ==> Held(world, St(), bound) && ProvidedIn(world, found, recorded)
      ensures error.None? ==> world.nodes[found].Link? || world.nodes[found].Dir?
      ensures error.None? ==> Goes(world, old(recorded), recorded, open, bound)
      ensures error.Some? ==> !Fits(world, bound)
      decreases Left(world, recorded), 2
    {
      if world.nodes[found].Link? {
        error := FollowLink(found, open, bound);
      } else if world.nodes[found].Dir? {
        error := DirectoryAndPackage(found, found, open, bound);
      } else {
        error := Some("PACKAGE_TRANSITIVE_DEPENDENCY_INVALID");
        Unmet(world, package, i, bound);
      }
    }
  }

  /** The first entries of a directory, as far as they are taken, are all in the set. */
  ghost predicate EntriesIn(w: World, directory: Path, n: nat, s: set<Item>)
    requires directory in w.nodes && w.nodes[directory].Dir? && n <= |w.nodes[directory].names|
  {
    forall i | 0 <= i < n ::
      var name := w.nodes[directory].names[i];
      Taken(w, directory, name) ==> directory + [name] in w.nodes && EntryItem(w, directory + [name]) in s
  }

  lemma EntriesGrow(w: World, directory: Path, i: nat, before: set<Item>, after: set<Item>)
    requires directory in w.nodes && w.nodes[directory].Dir? && i < |w.nodes[directory].names|
    requires EntriesIn(w, directory, i, before) && before <= after
    requires var name := w.nodes[directory].names[i];
             Taken(w, directory, name) ==> directory + [name] in w.nodes && EntryItem(w, directory + [name]) in after
    ensures EntriesIn(w, directory, i + 1, after)
  {
  }

  lemma EntriesSuffice(w: World, directory: Path, s: set<Item>)
    requires directory in w.nodes && w.nodes[directory].Dir? && EntriesIn(w, directory, |w.nodes[directory].names|, s)
    ensures forall b | Needs(w, DirItem(directory), b) :: b in s
  {
  }

  lemma EntryInBound(w: World, directory: Path, i: nat, bound: set<Item>)
    requires Consistent(w) && Closed(w, bound) && DirItem(directory) in bound
    requires directory in w.nodes && w.nodes[directory].Dir? && i < |w.nodes[directory].names|
    requires Taken(w, directory, w.nodes[directory].names[i])
    ensures directory + [w.nodes[directory].names[i]] in w.nodes
    ensures EntryItem(w, directory + [w.nodes[directory].names[i]]) in bound
  {
    var name := w.nodes[directory].names[i];
    InBound(w, bound, DirItem(directory), EntryItem(w, directory + [name]));
  }

  /** Everything that a found dependency stands for is in the set. */
  ghost predicate ProvidedIn(w: World, found: Path, s: set<Item>) {
    forall b | Provides(w, found, b) :: b in s
  }

  /** The first dependencies of a package are met, and what provides them is in the set. */
  ghost predicate DependenciesIn(w: World, package: Path, n: nat, s: set<Item>)
    requires package in w.manifests && n <= |w.manifests[package]|
  {
    forall i | 0 <= i < n ::
      var found := Find(w, package, w.manifests[package][i].name);
      DependencyMet(w, package, w.manifests[package][i]) && (found.Some? ==> ProvidedIn(w, found.value, s))
  }

  lemma DependenciesGrow(w: World, package: Path, i: nat, before: set<Item>, after: set<Item>)
    requires package in w.manifests && i < |w.manifests[package]|
    requires DependenciesIn(w, package, i, before) && before <= after
    requires var found := Find(w, package, w.manifests[package][i].name);
             DependencyMet(w, package, w.manifests[package][i]) && (found.Some? ==> ProvidedIn(w, found.value, after))
    ensures DependenciesIn(w, package, i + 1, after)
  {
  }

  lemma DependenciesSuffice(w: World, package: Path, s: set<Item>)
    requires package in w.manifests && DependenciesIn(w, package, |w.manifests[package]|, s)
    ensures Sound(w, PackageItem(package)) && forall b | Needs(w, PackageItem(package), b) :: b in s
  {
  }

  lemma DependencyInBound(w: World, package: Path, i: nat, bound: set<Item>)
    requires Closed(w, bound) && PackageItem(package) in bound && package in w.manifests && i < |w.manifests[package]|
    requires Find(w, package, w.manifests[package][i].name).Some?
    ensures ProvidedIn(w, Find(w, package, w.manifests[package][i].name).value, bound)
  {
    var found := Find(w, package, w.manifests[package][i].name).value;
    forall b | Provides(w, found, b)
      ensures b in bound
    {
      InBound(w, bound, PackageItem(package), b);
    }
  }

  /** The link leads to a package of the store. */
  predicate HasTarget(w: World, link: Path) {
    && link in w.nodes && w.nodes[link].Link? && w.nodes[link].resolved.Some?
    && InStore(w.nodes[link].resolved.value) && w.nodes[link].resolved.value !in w.workspaces
  }

  predicate TargetIn(w: World, link: Path, s: set<Item>)
    requires HasTarget(w, link)
  {
    var place := w.nodes[link].resolved.value;
    DirItem(StoreDirectory(place)) in s && PackageItem(StorePackage(place)) in s
  }

  lemma TargetInBound(w: World, link: Path, bound: set<Item>)
    requires HasTarget(w, link) && Closed(w, bound) && LinkItem(link) in bound
    ensures TargetIn(w, link, bound)
  {
    var place := w.nodes[link].resolved.value;
    InBound(w, bound, LinkItem(link), DirItem(StoreDirectory(place)));
    InBound(w, bound, LinkItem(link), PackageItem(StorePackage(place)));
  }

  lemma TargetSuffices(w: World, link: Path, s: set<Item>)
    requires HasTarget(w, link) && TargetIn(w, link, s)
    ensures forall b | Needs(w, LinkItem(link), b) :: b in s
  {
  }

  lemma Unmet(w: World, package: Path, i: nat, bound: set<Item>)
    requires PackageItem(package) in bound && package in w.manifests && i < |w.manifests[package]|
    requires !DependencyMet(w, package, w.manifests[package][i])
    ensures !Fits(w, bound)
  {
    assert !Acceptable(w, PackageItem(package));
  }

  lemma NoRoomForFile(w: World, s: State, bound: set<Item>, name: Path)
    requires Held(w, s, bound) && FileItem(name) in bound && name !in s.files
    requires s.bytes + SizeOf(w, name) > w.maxBytes || |s.files| + |s.links| >= MAX_FILES
    ensures !Fits(w, bound)
  {
    if Fits(w, bound) {
      NotYet(s, FileItem(name));
      RoomForLeaf(w, s, bound, FileItem(name));
      RoomForBytes(w, s, bound, name);
    }
  }

  lemma NoRoomForLink(w: World, s: State, bound: set<Item>, path: Path)
    requires Held(w, s, bound) && LinkItem(path) in bound && LinkItem(path) !in s.recorded
    requires |s.files| + |s.links| >= MAX_FILES
    ensures !Fits(w, bound)
  {
    if Fits(w, bound) {
      RoomForLeaf(w, s, bound, LinkItem(path));
    }
  }

  lemma NotYet(s: State, item: Item)
    requires Tied(s)
    ensures item in s.recorded <==> Has(s, item)
  {
  }
}
