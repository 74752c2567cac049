/** The export of a staged release: projected and admitted. */
module ExportStage {
  import opened Prelude
  import opened Sums

  const STAGE_BYTES: nat := 1024 * 1024 * 1024
  const STAGE_INODES: nat := 65536

  /** `inside`: the link is relative and stays in the stage. */
  datatype Kind = Regular(inode: nat, size: nat) | Directory | Symlink(inside: bool) | Unsupported

  datatype Entry = Entry(path: string, kind: Kind)

  /** The size in whole blocks. */
  function Rounded(size: nat, block: nat): nat
    requires block > 0
  {
    (size + block - 1) / block * block
  }

  /** The fewest whole blocks that hold the size. */
  lemma RoundedUp(size: nat, block: nat)
    requires block > 0
    ensures exists blocks: nat :: Rounded(size, block) == blocks * block
    ensures size <= Rounded(size, block) < size + block
  {
    var n := size + block - 1;
    assert n == n / block * block + n % block;
  }

  /** The rounded size of each inode; the first path of an inode decides. */
  function Blocks(entries: seq<Entry>, block: nat): map<nat, nat>
    requires block > 0
  {
    if entries == [] then map[]
    else
      var m, last := Blocks(entries[..|entries| - 1], block), entries[|entries| - 1].kind;
      if last.Regular? && last.inode !in m then m[last.inode := Rounded(last.size, block)] else m
  }

  function Paths(entries: seq<Entry>): set<string> {
    set i | 0 <= i < |entries| :: entries[i].path
  }

  predicate Exportable(e: Entry) {
    e.kind.Regular? || e.kind.Directory? || (e.kind.Symlink? && e.kind.inside)
  }

  /** Nothing is refused but a link to the outside and what is no file, directory or link. */
  lemma RefusedExactly(e: Entry)
    ensures !Exportable(e) <==> e.kind == Unsupported || e.kind == Symlink(false)
  {
  }

  /** An entry that the walk meets again is the same entry. */
  ghost predicate OneEntryPerPath(entries: seq<Entry>) {
    forall i, j | 0 <= i < j < |entries| && entries[i].path == entries[j].path :: entries[i] == entries[j]
  }

  lemma BlocksSnoc(entries: seq<Entry>, e: Entry, block: nat)
    requires block > 0
    ensures Blocks(entries + [e], block) ==
            var m := Blocks(entries, block);
            if e.kind.Regular? && e.kind.inode !in m then m[e.kind.inode := Rounded(e.kind.size, block)] else m
  {
    assert (entries + [e])[..|entries|] == entries;
  }

  lemma {:induction false} BlocksHas(entries: seq<Entry>, block: nat, inode: nat)
    requires block > 0
    ensures inode in Blocks(entries, block) <==>
              exists i :: 0 <= i < |entries| && entries[i].kind.Regular? && entries[i].kind.inode == inode
  {
    if entries != [] {
      var init, n := entries[..|entries| - 1], |entries| - 1;
      BlocksHas(init, block, inode);
      assert forall i | 0 <= i < n :: init[i] == entries[i];
    }
  }

  /** What has been counted for the first entries. */
  ghost predicate CountedTo(entries: seq<Entry>, n: nat, block: nat, seen: set<nat>, paths: set<string>, data: nat)
    requires block > 0 && n <= |entries|
  {
    && seen == Blocks(entries[..n], block).Keys && paths == Paths(entries[..n])
    && data == Total(Blocks(entries[..n], block))
    && forall k | 0 <= k < n :: Exportable(entries[k])
  }

  lemma CountOne(entries: seq<Entry>, n: nat, block: nat, seen: set<nat>, paths: set<string>, data: nat)
    requires block > 0 && n < |entries| && CountedTo(entries, n, block, seen, paths, data) && Exportable(entries[n])
    ensures var k := entries[n].kind;
            if k.Regular? && k.inode !in seen then
              CountedTo(entries, n + 1, block, seen + {k.inode}, paths + {entries[n].path}, data + Rounded(k.size, block))
            else CountedTo(entries, n + 1, block, seen, paths + {entries[n].path}, data)
  {
    assert entries[..n + 1] == entries[..n] + [entries[n]];
    BlocksSnoc(entries[..n], entries[n], block);
    var k := entries[n].kind;
    if k.Regular? && k.inode !in seen {
      TotalGrows(Blocks(entries[..n], block), k.inode, Rounded(k.size, block));
    }
    PathsSnoc(entries[..n], entries[n]);
  }

  lemma PathsSnoc(entries: seq<Entry>, e: Entry)
    ensures Paths(entries + [e]) == Paths(entries) + {e.path}
  {
    var all := entries + [e];
    assert all[|entries|] == e;
    forall p | p in Paths(entries)
      ensures p in Paths(all)
    {
      var i :| 0 <= i < |entries| && entries[i].path == p;
      assert all[i] == entries[i];
    }
  }

  lemma AgainCounted(entries: seq<Entry>, n: nat, block: nat, seen: set<nat>, paths: set<string>, data: nat)
    requires block > 0 && n < |entries| && CountedTo(entries, n, block, seen, paths, data)
    requires OneEntryPerPath(entries) && entries[n].path in paths
    ensures CountedTo(entries, n + 1, block, seen, paths, data) && Exportable(entries[n])
  {
    var i :| 0 <= i < n && entries[..n][i].path == entries[n].path;
    assert entries[i] == entries[n];
    CountOne(entries, n, block, seen, paths, data);
    if entries[n].kind.Regular? {
      assert entries[..n][i].kind.Regular? && entries[..n][i].kind.inode == entries[n].kind.inode;
      BlocksHas(entries[..n], block, entries[n].kind.inode);
    }
    assert paths + {entries[n].path} == paths;
  }

  /** One entry more: its inode if it is new, and its path. */
  method Count(e: Entry, block: nat, seen: set<nat>, paths: set<string>, data: nat, count: nat)
    returns (seenNow: set<nat>, pathsNow: set<string>, dataNow: nat, countNow: nat)
    requires block > 0 && e.path !in paths && count == |paths|
    ensures pathsNow == paths + {e.path} && countNow == |pathsNow|
    ensures if e.kind.Regular? && e.kind.inode !in seen
            then seenNow == seen + {e.kind.inode} && dataNow == data + Rounded(e.kind.size, block)
            else seenNow == seen && dataNow == data
  {
    seenNow, pathsNow, dataNow, countNow := seen, paths + {e.path}, data, count + 1;
    if e.kind.Regular? && e.kind.inode !in seen {
      seenNow := seen + {e.kind.inode};
      dataNow := data + Rounded(e.kind.size, block);
    }
  }

  /** The whole blocks of the data, and two blocks for every path. */
  function Projected(data: nat, paths: nat, block: nat): nat {
    data + paths * 2 * block
  }

  lemma NothingCounted(entries: seq<Entry>, block: nat)
    requires block > 0
    ensures CountedTo(entries, 0, block, {}, {}, 0)
  {
    assert entries[..0] == [];
  }

  lemma AllCounted(entries: seq<Entry>, block: nat, seen: set<nat>, paths: set<string>, data: nat)
    requires block > 0 && CountedTo(entries, |entries|, block, seen, paths, data)
    ensures paths == Paths(entries) && data == Total(Blocks(entries, block))
    ensures forall e | e in entries :: Exportable(e)
  {
    assert entries[..|entries|] == entries;
  }

  lemma NotAllExportable(entries: seq<Entry>, i: nat)
    requires i < |entries| && !Exportable(entries[i])
    ensures !(forall e | e in entries :: Exportable(e))
  {
    assert entries[i] in entries;
  }

  /** `export_projection`: every inode once in whole blocks, and two blocks for every path. */
  method ExportProjection(entries: seq<Entry>, block: nat) returns (r: Result<nat>)
    requires block > 0 && OneEntryPerPath(entries)
    ensures r.Ok? <==>
              && (forall e | e in entries :: Exportable(e))
              && Total(Blocks(entries, block)) <= STAGE_BYTES && |Paths(entries)| <= STAGE_INODES
    ensures r.Ok? ==> r.value == Projected(Total(Blocks(entries, block)), |Paths(entries)|, block)
  {
    var seen: set<nat>, paths: set<string> := {}, {};
    var count: nat, data: nat := 0, 0;
    NothingCounted(entries, block);
    for i := 0 to |entries|
      invariant CountedTo(entries, i, block, seen, paths, data) && count == |paths|
    {
      if entries[i].path in paths {
        AgainCounted(entries, i, block, seen, paths, data);
        continue;
      }
      if !Exportable(entries[i]) {
        NotAllExportable(entries, i);
        return Err(if entries[i].kind.Symlink? then "OPS_STAGE_EXTERNAL_SYMLINK" else "OPS_STAGE_UNSUPPORTED_FILE");
      }
      CountOne(entries, i, block, seen, paths, data);
      seen, paths, data, count := Count(entries[i], block, seen, paths, data, count);
    }
    AllCounted(entries, block, seen, paths, data);
    if data > STAGE_BYTES || count > STAGE_INODES {
      return Err("OPS_STAGE_BYTES_OR_INODES_LIMIT");
    }
    return Ok(Projected(data, count, block));
  }

  /** `staging_growth_bytes` */
  function StagingGrowth(block: nat): nat {
    STAGE_BYTES + STAGE_INODES * 2 * block
  }

  /** The admission in `check_budget` and in `export_stage`. */
  predicate Admitted(used: nat, free: nat, maxBytes: nat, reserve: nat, block: nat) {
    used + StagingGrowth(block) <= maxBytes && free >= reserve + StagingGrowth(block)
  }

  /** An export is admitted with room for 1 GiB and two blocks for each of 65,536 paths, and the reserve besides. */
  lemma AdmittedExactly(used: nat, free: nat, maxBytes: nat, reserve: nat, block: nat)
    ensures StagingGrowth(block) == 1073741824 + 131072 * block && STAGE_BYTES == 1073741824 && STAGE_INODES == 65536
    ensures Admitted(used, free, maxBytes, reserve, block) <==>
              used + 1073741824 + 131072 * block <= maxBytes && reserve + 1073741824 + 131072 * block <= free
  {
  }

  /** Every further path takes two blocks. */
  lemma ProjectedByPath(data: nat, paths: nat, block: nat)
    ensures Projected(data, 0, block) == data
    ensures Projected(data, paths + 1, block) == Projected(data, paths, block) + block + block
  {
    assert (paths + 1) * 2 * block == paths * 2 * block + 2 * block;
  }

  /** Whatever is projected fits an admitted export, for every block size. */
  lemma AdmissionCovers(entries: seq<Entry>, used: nat, free: nat, maxBytes: nat, reserve: nat, block: nat)
    requires block > 0 && Admitted(used, free, maxBytes, reserve, block)
    requires Total(Blocks(entries, block)) <= STAGE_BYTES && |Paths(entries)| <= STAGE_INODES
    ensures var projected := Projected(Total(Blocks(entries, block)), |Paths(entries)|, block);
            used + projected <= maxBytes && free >= reserve + projected
  {
    MoreEntries(|Paths(entries)|, STAGE_INODES, block);
  }

  lemma MoreEntries(a: nat, b: nat, block: nat)
    requires a <= b
    ensures a * 2 * block <= b * 2 * block
  {
    assert (b - a) * 2 * block >= 0;
  }

  /** The first part of `export_stage`: nothing is copied unless the whole projection fits. */
  method AdmitExport(entries: seq<Entry>, used: nat, free: nat, maxBytes: nat, reserve: nat, block: nat) returns (r: Result<nat>)
    requires block > 0 && OneEntryPerPath(entries)
    ensures r.Ok? <==>
              && (forall e | e in entries :: Exportable(e))
              && Total(Blocks(entries, block)) <= STAGE_BYTES && |Paths(entries)| <= STAGE_INODES
              && Admitted(used, free, maxBytes, reserve, block)
    ensures r.Ok? ==> used + r.value <= maxBytes && free >= reserve + r.value
    ensures r.Ok? ==> r.value == Projected(Total(Blocks(entries, block)), |Paths(entries)|, block)
  {
    r := ExportProjection(entries, block);
    if r.Err? {
      return;
    }
    var bound := StagingGrowth(block);
    if used + bound > maxBytes {
      return Err("OPS_RELEASE_BYTES_LIMIT");
    }
    if free < reserve + bound {
      return Err("OPS_RELEASE_FREE_SPACE_RESERVE");
    }
    AdmissionCovers(entries, used, free, maxBytes, reserve, block);
  }
}
