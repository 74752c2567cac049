/**
 * The state of package discovery and its budgets: what every recorded file, link, directory and package
 * keeps, and that a budget that is exceeded means that no closed set around the roots fits.
 */
module PackageBudget {
  import opened Prelude
  import opened PackageGraph
  import opened PosixPath
  import opened SetSizes
  import opened Sums

  const MAX_FILES := 100000
  const MAX_DIRS := 80000
  const MAX_DEPTH := 64
  const MAX_FILE_BYTES := 256 * 1024 * 1024
  const MAX_LINK_TARGET_BYTES := 4096

  /** `safe_name` on the parts of a path. */
  predicate SafePath(p: Path) {
    p != [] && forall i | 0 <= i < |p| :: p[i] != "" && p[i] != "." && p[i] != ".." && '/' !in p[i] && NoControl(p[i])
  }

  /** The text of a link is short and relative and has no control characters. */
  predicate PlainTarget(target: string, targetBytes: nat) {
    targetBytes <= MAX_LINK_TARGET_BYTES && NoControl(target) && !(target != "" && target[0] == '/')
  }

  function TargetSizes(w: World, links: map<Path, string>): map<Path, nat> {
    map p | p in links :: if p in w.nodes && w.nodes[p].Link? then w.nodes[p].targetBytes else 0
  }

  /** The ancestors of a path, up to a number of parts, are recorded as directories. */
  predicate Covered(directories: set<Path>, p: Path, parts: nat)
    requires parts <= |p|
  {
    forall k | 0 < k <= parts :: p[..k] in directories
  }

  /** A recorded name is safe, not too deep, and below recorded directories. */
  predicate Placed(directories: set<Path>, p: Path) {
    SafePath(p) && |p| <= MAX_DEPTH && Covered(directories, p, |p| - 1)
  }

  /** Everything that an inventory records; `recorded` has the same as items. */
  datatype State = State(files: map<Path, nat>, links: map<Path, string>, visited: set<Path>, directories: set<Path>,
                         bytes: nat, symlinkBytes: nat, checked: set<Path>, recorded: set<Item>)

  predicate Has(s: State, item: Item) {
    match item
    case LinkItem(p) => p in s.links
    case DirItem(p) => p in s.visited
    case PackageItem(p) => p in s.checked
    case FileItem(p) => p in s.files
  }

  ghost predicate Tied(s: State) {
    forall item :: item in s.recorded <==> Has(s, item)
  }

  /** The totals are exact and within the budget. */
  ghost predicate Counted(w: World, s: State) {
    && s.bytes == Total(s.files) <= w.maxBytes
    && s.symlinkBytes == Total(TargetSizes(w, s.links))
    && |s.files| + |s.links| <= MAX_FILES && |s.directories| <= MAX_DIRS
  }

  /** What is recorded is what is there, under safe names. */
  ghost predicate Faithful(w: World, s: State) {
    && (forall p | p in s.files :: p !in s.links && p in w.nodes && w.nodes[p] == File(s.files[p])
                                   && s.files[p] <= MAX_FILE_BYTES && Placed(s.directories, p))
    && (forall p | p in s.links :: p in w.nodes && w.nodes[p].Link? && w.nodes[p].target == s.links[p]
                                   && PlainTarget(s.links[p], w.nodes[p].targetBytes) && Placed(s.directories, p))
    && (forall p | p in s.visited :: p in w.nodes && w.nodes[p].Dir? && Placed(s.directories, p) && p in s.directories)
  }

  ghost predicate Recorded(w: World, s: State) {
    Counted(w, s) && Faithful(w, s) && Tied(s)
  }

  lemma StillPlaced(before: set<Path>, after: set<Path>, p: Path)
    requires before <= after && Placed(before, p)
    ensures Placed(after, p)
  {
  }

  lemma MoreDirectories(w: World, s: State, directories: set<Path>)
    requires Recorded(w, s) && s.directories <= directories && |directories| <= MAX_DIRS
    ensures Recorded(w, s.(directories := directories))
  {
    FaithfulWithMore(w, s, directories);
    assert Tied(s.(directories := directories)) by { TiedWithMore(s, directories); }
  }

  lemma TiedWithMore(s: State, directories: set<Path>)
    requires Tied(s)
    ensures Tied(s.(directories := directories))
  {
  }

  /** More directories keep everything faithful. */
  lemma FaithfulWithMore(w: World, s: State, directories: set<Path>)
    requires Faithful(w, s) && s.directories <= directories
    ensures Faithful(w, s.(directories := directories))
  {
    forall p | Placed(s.directories, p)
      ensures Placed(directories, p)
    {
      StillPlaced(s.directories, directories, p);
    }
  }

  lemma FileCounted(w: World, s: State, p: Path, size: nat)
    requires Counted(w, s) && p !in s.files && s.bytes + size <= w.maxBytes && |s.files| + |s.links| < MAX_FILES
    ensures Counted(w, WithFile(s, p, size))
  {
    TotalGrows(s.files, p, size);
    OneMoreKey(s.files, p, size);
  }

  function WithFile(s: State, p: Path, size: nat): State {
    s.(files := s.files[p := size], bytes := s.bytes + size, recorded := s.recorded + {FileItem(p)})
  }

  lemma FileTied(s: State, p: Path, size: nat)
    requires Tied(s)
    ensures Tied(WithFile(s, p, size))
  {
  }

  lemma FileFaithful(w: World, s: State, p: Path, size: nat)
    requires Faithful(w, s) && p !in s.files && p !in s.links && Placed(s.directories, p)
    requires p in w.nodes && w.nodes[p] == File(size) && size <= MAX_FILE_BYTES
    ensures Faithful(w, WithFile(s, p, size))
  {
  }

  lemma FileRecorded(w: World, s: State, p: Path, size: nat)
    requires Recorded(w, s) && p !in s.files && p !in s.links && Placed(s.directories, p)
    requires p in w.nodes && w.nodes[p] == File(size) && size <= MAX_FILE_BYTES
    requires s.bytes + size <= w.maxBytes && |s.files| + |s.links| < MAX_FILES
    ensures Recorded(w, WithFile(s, p, size))
  {
    FileCounted(w, s, p, size);
    FileFaithful(w, s, p, size);
    FileTied(s, p, size);
  }

  function WithLink(w: World, s: State, p: Path): State
    requires p in w.nodes && w.nodes[p].Link?
  {
    s.(links := s.links[p := w.nodes[p].target], symlinkBytes := s.symlinkBytes + w.nodes[p].targetBytes,
       recorded := s.recorded + {LinkItem(p)})
  }

  lemma LinkTied(w: World, s: State, p: Path)
    requires Tied(s) && p in w.nodes && w.nodes[p].Link?
    ensures Tied(WithLink(w, s, p))
  {
  }

  lemma LinkFaithful(w: World, s: State, p: Path)
    requires Faithful(w, s) && p !in s.files && Placed(s.directories, p) && p in w.nodes && w.nodes[p].Link?
    requires PlainTarget(w.nodes[p].target, w.nodes[p].targetBytes)
    ensures Faithful(w, WithLink(w, s, p))
  {
  }

  lemma LinkTotal(w: World, s: State, p: Path)
    requires p !in s.links && p in w.nodes && w.nodes[p].Link?
    ensures Total(TargetSizes(w, s.links[p := w.nodes[p].target])) == Total(TargetSizes(w, s.links)) + w.nodes[p].targetBytes
  {
    var target := w.nodes[p].target;
    TotalGrows(TargetSizes(w, s.links), p, w.nodes[p].targetBytes);
    assert TargetSizes(w, s.links[p := target]) == TargetSizes(w, s.links)[p := w.nodes[p].targetBytes];
  }

  lemma LinkRecorded(w: World, s: State, p: Path)
    requires Recorded(w, s) && p !in s.files && p !in s.links && Placed(s.directories, p)
    requires p in w.nodes && w.nodes[p].Link? && |s.files| + |s.links| < MAX_FILES
    requires PlainTarget(w.nodes[p].target, w.nodes[p].targetBytes)
    ensures Recorded(w, WithLink(w, s, p))
  {
    LinkTotal(w, s, p);
    OneMoreKey(s.links, p, w.nodes[p].target);
    LinkFaithful(w, s, p);
    LinkTied(w, s, p);
  }

  function WithDirectory(s: State, p: Path): State {
    s.(visited := s.visited + {p}, recorded := s.recorded + {DirItem(p)})
  }

  lemma DirectoryTied(s: State, p: Path)
    requires Tied(s)
    ensures Tied(WithDirectory(s, p))
  {
  }

  lemma DirectoryFaithful(w: World, s: State, p: Path)
    requires Faithful(w, s) && Placed(s.directories, p) && p in s.directories && p in w.nodes && w.nodes[p].Dir?
    ensures Faithful(w, WithDirectory(s, p))
  {
  }

  lemma DirectoryRecorded(w: World, s: State, p: Path)
    requires Recorded(w, s) && Placed(s.directories, p) && p in s.directories && p in w.nodes && w.nodes[p].Dir?
    ensures Recorded(w, WithDirectory(s, p))
  {
    DirectoryTied(s, p);
    DirectoryFaithful(w, s, p);
    assert Counted(w, WithDirectory(s, p)) by { SameCounts(w, s, WithDirectory(s, p)); }
  }

  function WithPackage(s: State, p: Path): State {
    s.(checked := s.checked + {p}, recorded := s.recorded + {PackageItem(p)})
  }

  lemma PackageTied(s: State, p: Path)
    requires Tied(s)
    ensures Tied(WithPackage(s, p))
  {
  }

  lemma SameCounts(w: World, before: State, after: State)
    requires Counted(w, before)
    requires after.files == before.files && after.links == before.links && after.directories == before.directories
    requires after.bytes == before.bytes && after.symlinkBytes == before.symlinkBytes
    ensures Counted(w, after)
  {
  }

  lemma SameFacts(w: World, before: State, after: State)
    requires Faithful(w, before)
    requires after.files == before.files && after.links == before.links && after.directories == before.directories
    requires after.visited == before.visited
    ensures Faithful(w, after)
  {
  }

  lemma PackageRecorded(w: World, s: State, p: Path)
    requires Recorded(w, s)
    ensures Recorded(w, WithPackage(s, p))
  {
    PackageTied(s, p);
    SameCounts(w, s, WithPackage(s, p));
    SameFacts(w, s, WithPackage(s, p));
  }

  /** How many parts of an item's path are recorded as directories. */
  function Depth(item: Item): nat {
    match item
    case DirItem(p) => |p|
    case PackageItem(_) => 0
    case _ => if item.path == [] then 0 else |item.path| - 1
  }

  ghost function Ancestors(bound: set<Item>): set<Path> {
    set item, k | item in bound && 0 < k <= Depth(item) && k <= |item.path| :: item.path[..k]
  }

  ghost function Leaves(bound: set<Item>): set<Item> {
    set item | item in bound && (item.FileItem? || item.LinkItem?)
  }

  function SizeOf(w: World, p: Path): nat {
    if p in w.nodes && w.nodes[p].File? then w.nodes[p].size else 0
  }

  ghost function Sizes(w: World, bound: set<Item>): map<Path, nat> {
    map p | p in (set item | item in bound && item.FileItem? :: item.path) :: SizeOf(w, p)
  }

  /** The item itself breaks no rule. */
  predicate Acceptable(w: World, item: Item) {
    && Sound(w, item)
    && (!item.PackageItem? ==> SafePath(item.path) && |item.path| <= MAX_DEPTH && item.path in w.nodes)
    && (item.DirItem? ==> w.nodes[item.path].Dir?)
    && (item.FileItem? ==> w.nodes[item.path].File? && w.nodes[item.path].size <= MAX_FILE_BYTES)
    && (item.LinkItem? ==> PlainTarget(w.nodes[item.path].target, w.nodes[item.path].targetBytes))
  }

  /** A whole set of items breaks no rule and exceeds no limit. */
  ghost predicate Fits(w: World, bound: set<Item>) {
    && (forall item | item in bound :: Acceptable(w, item))
    && |Ancestors(bound)| <= MAX_DIRS && |Leaves(bound)| <= MAX_FILES && Total(Sizes(w, bound)) <= w.maxBytes
  }

  /** Nothing beyond a bound is recorded, not even a directory. */
  ghost predicate Contained(s: State, bound: set<Item>) {
    s.recorded <= bound && s.directories <= Ancestors(bound)
  }

  ghost predicate Held(w: World, s: State, bound: set<Item>) {
    Recorded(w, s) && Contained(s, bound)
  }

  lemma AncestorOf(bound: set<Item>, item: Item, k: nat)
    requires item in bound && 0 < k <= Depth(item) && k <= |item.path|
    ensures item.path[..k] in Ancestors(bound)
  {
  }

  ghost function FilesOf(s: State): set<Item> {
    set p | p in s.files.Keys :: FileItem(p)
  }

  ghost function LinksOf(s: State): set<Item> {
    set p | p in s.links.Keys :: LinkItem(p)
  }

  lemma LeavesCounted(s: State)
    ensures |FilesOf(s) + LinksOf(s)| == |s.files| + |s.links|
  {
    forall p | p in s.files.Keys
      ensures exists item :: item in FilesOf(s) && item.path == p
    {
      assert FileItem(p) in FilesOf(s);
    }
    OneToOne(FilesOf(s), s.files.Keys, (item: Item) => item.path);
    forall p | p in s.links.Keys
      ensures exists item :: item in LinksOf(s) && item.path == p
    {
      assert LinkItem(p) in LinksOf(s);
    }
    OneToOne(LinksOf(s), s.links.Keys, (item: Item) => item.path);
    assert |s.files| == |s.files.Keys| && |s.links| == |s.links.Keys|;
    assert FilesOf(s) !! LinksOf(s);
  }

  lemma LeavesContained(s: State, bound: set<Item>, item: Item)
    requires Tied(s) && s.recorded <= bound && item in bound && item !in s.recorded && (item.FileItem? || item.LinkItem?)
    ensures FilesOf(s) + LinksOf(s) + {item} <= Leaves(bound) && item !in FilesOf(s) + LinksOf(s)
  {
    forall x | x in FilesOf(s) + LinksOf(s)
      ensures x in Leaves(bound) && x != item
    {
      assert Has(s, x);
      assert x in s.recorded;
    }
  }

  /** While one more file or link of a fitting bound is missing, there is room for it. */
  lemma RoomForLeaf(w: World, s: State, bound: set<Item>, item: Item)
    requires Tied(s) && s.recorded <= bound && |Leaves(bound)| <= MAX_FILES
    requires item in bound && item !in s.recorded && (item.FileItem? || item.LinkItem?)
    ensures |s.files| + |s.links| < MAX_FILES
  {
    LeavesCounted(s);
    LeavesContained(s, bound, item);
    Subsets(FilesOf(s) + LinksOf(s) + {item}, Leaves(bound));
  }

  lemma SizesAgree(w: World, s: State, bound: set<Item>, q: Path)
    requires Faithful(w, s) && Tied(s) && s.recorded <= bound && q in s.files
    ensures q in Sizes(w, bound) && Sizes(w, bound)[q] == s.files[q]
  {
    assert Has(s, FileItem(q));
    assert FileItem(q) in bound;
  }

  lemma RoomForBytes(w: World, s: State, bound: set<Item>, p: Path)
    requires Recorded(w, s) && s.recorded <= bound && Total(Sizes(w, bound)) <= w.maxBytes
    requires FileItem(p) in bound && p !in s.files
    ensures s.bytes + SizeOf(w, p) <= w.maxBytes
  {
    var part := s.files[p := SizeOf(w, p)];
    forall q | q in part
      ensures q in Sizes(w, bound) && Sizes(w, bound)[q] == part[q]
    {
      if q != p {
        SizesAgree(w, s, bound, q);
      }
    }
    RoomAdds(s.files, p, SizeOf(w, p), Sizes(w, bound));
  }

  lemma RoomAdds(files: map<Path, nat>, p: Path, size: nat, whole: map<Path, nat>)
    requires p !in files && forall q | q in files[p := size] :: q in whole && whole[q] == files[p := size][q]
    ensures Total(files) + size <= Total(whole)
  {
    TotalGrows(files, p, size);
    TotalOfPart(files[p := size], whole);
  }

  /** Every ancestor of a recorded item is a recorded directory. */
  lemma AncestorsRecorded(w: World, s: State)
    requires Faithful(w, s) && Tied(s)
    ensures Ancestors(s.recorded) <= s.directories
  {
    forall item, k | item in s.recorded && 0 < k <= Depth(item) && k <= |item.path|
      ensures item.path[..k] in s.directories
    {
      assert Has(s, item);
      assert Placed(s.directories, item.path);
      if k == |item.path| {
        assert item.path[..k] == item.path;
      }
    }
  }

  lemma LeavesRecorded(s: State)
    requires Tied(s)
    ensures Leaves(s.recorded) == FilesOf(s) + LinksOf(s)
  {
    forall item
      ensures item in Leaves(s.recorded) <==> item in FilesOf(s) + LinksOf(s)
    {
      assert item in s.recorded <==> Has(s, item);
    }
  }

  lemma SizesRecorded(w: World, s: State)
    requires Faithful(w, s) && Tied(s)
    ensures Sizes(w, s.recorded) == s.files
  {
    forall p | p in Sizes(w, s.recorded)
      ensures p in s.files
    {
      assert Has(s, FileItem(p));
    }
    forall p | p in s.files
      ensures p in Sizes(w, s.recorded) && Sizes(w, s.recorded)[p] == s.files[p]
    {
      SizesAgree(w, s, s.recorded, p);
    }
  }

  lemma RecordedAcceptable(w: World, s: State, item: Item)
    requires Faithful(w, s) && Tied(s) && ClosedExcept(w, s.recorded, {}) && item in s.recorded
    ensures Acceptable(w, item)
  {
    assert Has(s, item);
  }

  /** What has been recorded, with everything that it needs, breaks no rule and exceeds no limit. */
  lemma RecordedFits(w: World, s: State)
    requires Recorded(w, s) && ClosedExcept(w, s.recorded, {})
    ensures Fits(w, s.recorded)
  {
    forall item | item in s.recorded
      ensures Acceptable(w, item)
    {
      RecordedAcceptable(w, s, item);
    }
    AncestorsRecorded(w, s);
    Subsets(Ancestors(s.recorded), s.directories);
    LeavesRecorded(s);
    LeavesCounted(s);
    SizesRecorded(w, s);
  }
}
