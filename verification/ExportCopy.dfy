/** The copy of a staged release that keeps its hard links, and what it takes on the disk. */
module ExportCopy {
  import opened Prelude
  import opened SetSizes
  import opened Sums
  import opened ExportStage

  /** The regular files that the copy function handles: all but the staged Node. */
  function Copied(entries: seq<Entry>, node: string): seq<Entry> {
    if entries == [] then []
    else
      var rest, last := Copied(entries[..|entries| - 1], node), entries[|entries| - 1];
      if last.kind.Regular? && last.path != node then rest + [last] else rest
  }

  /** The same paths and sizes, and the same files shared between paths. */
  ghost predicate SameSharing(source: seq<Entry>, target: seq<Entry>) {
    && |source| == |target|
    && (forall i | 0 <= i < |source| ::
          && source[i].kind.Regular? && target[i].kind.Regular?
          && target[i].path == source[i].path && target[i].kind.size == source[i].kind.size)
    && (forall i, j | 0 <= i < j < |source| ::
          source[i].kind.inode == source[j].kind.inode <==> target[i].kind.inode == target[j].kind.inode)
  }

  /** The inode that each copied inode got. */
  ghost predicate TracksCopies(source: seq<Entry>, target: seq<Entry>, copied: map<nat, nat>, next: nat) {
    && SameSharing(source, target)
    && (forall i | 0 <= i < |source| ::
          source[i].kind.inode in copied && copied[source[i].kind.inode] == target[i].kind.inode < next)
    && (forall inode | inode in copied :: exists i :: 0 <= i < |source| && source[i].kind.inode == inode)
  }

  lemma CopiedSnoc(entries: seq<Entry>, n: nat, node: string)
    requires n < |entries|
    ensures Copied(entries[..n + 1], node) ==
            Copied(entries[..n], node) +
            if entries[n].kind.Regular? && entries[n].path != node then [entries[n]] else []
  {
    assert entries[..n + 1][..n] == entries[..n];
  }

  /** Another path of an inode that has been copied. */
  lemma LinkOne(source: seq<Entry>, target: seq<Entry>, copied: map<nat, nat>, next: nat, e: Entry)
    requires TracksCopies(source, target, copied, next) && e.kind.Regular? && e.kind.inode in copied
    ensures TracksCopies(source + [e], target + [Entry(e.path, Regular(copied[e.kind.inode], e.kind.size))], copied, next)
  {
    var all := source + [e];
    assert forall i | 0 <= i < |source| :: all[i] == source[i];
  }

  /** The first path of an inode. */
  lemma CopyOne(source: seq<Entry>, target: seq<Entry>, copied: map<nat, nat>, next: nat, e: Entry)
    requires TracksCopies(source, target, copied, next) && e.kind.Regular? && e.kind.inode !in copied
    ensures TracksCopies(source + [e], target + [Entry(e.path, Regular(next, e.kind.size))],
                         copied[e.kind.inode := next], next + 1)
  {
    var all := source + [e];
    assert forall i | 0 <= i < |source| :: all[i] == source[i];
    assert all[|source|] == e;
  }

  /**
   * The copy of `export_stage`: the first path of an inode is copied to a new inode, every other path
   * becomes a hard link to that copy, and the staged Node is left out.
   */
  method CopyStage(entries: seq<Entry>, node: string, unused: nat) returns (target: seq<Entry>)
    ensures SameSharing(Copied(entries, node), target)
    ensures forall e | e in target :: e.kind.Regular? && e.kind.inode >= unused
  {
    target := [];
    var copied: map<nat, nat> := map[];
    var next: nat := unused;
    for i := 0 to |entries|
      invariant TracksCopies(Copied(entries[..i], node), target, copied, next)
      invariant next >= unused && forall e | e in target :: e.kind.Regular? && e.kind.inode >= unused
    {
      var e := entries[i];
      CopiedSnoc(entries, i, node);
      if !e.kind.Regular? || e.path == node {
        continue;
      }
      if e.kind.inode in copied {
        LinkOne(Copied(entries[..i], node), target, copied, next, e);
        target := target + [Entry(e.path, Regular(copied[e.kind.inode], e.kind.size))];
      } else {
        CopyOne(Copied(entries[..i], node), target, copied, next, e);
        target := target + [Entry(e.path, Regular(next, e.kind.size))];
        copied := copied[e.kind.inode := next];
        next := next + 1;
      }
    }
    assert entries[..|entries|] == entries;
  }

  /** The inodes of paths that are equal or not in the same way are counted in the same way. */
  lemma {:induction false} SharingKeepsBlocks(source: seq<Entry>, target: seq<Entry>, block: nat)
    requires block > 0 && SameSharing(source, target)
    ensures Total(Blocks(target, block)) == Total(Blocks(source, block))
    ensures |Blocks(target, block)| == |Blocks(source, block)|
  {
    if source != [] {
      var n := |source| - 1;
      var s, t := source[..n], target[..n];
      SharingKeepsBlocks(s, t, block);
      SameNovelty(source, target, block);
      if source[n].kind.inode !in Blocks(s, block) {
        OneMoreBlock(Blocks(s, block), source[n].kind.inode, Rounded(source[n].kind.size, block));
        OneMoreBlock(Blocks(t, block), target[n].kind.inode, Rounded(target[n].kind.size, block));
      }
    }
  }

  lemma OneMoreBlock(m: map<nat, nat>, inode: nat, size: nat)
    requires inode !in m
    ensures Total(m[inode := size]) == Total(m) + size && |m[inode := size]| == |m| + 1
  {
    TotalGrows(m, inode, size);
    OneMoreKey(m, inode, size);
  }

  /** The last path is the first one of its inode in both or in none. */
  lemma SameNovelty(source: seq<Entry>, target: seq<Entry>, block: nat)
    requires block > 0 && SameSharing(source, target) && source != []
    ensures var n := |source| - 1;
            source[n].kind.inode in Blocks(source[..n], block) <==> target[n].kind.inode in Blocks(target[..n], block)
  {
    var n := |source| - 1;
    BlocksHas(source[..n], block, source[n].kind.inode);
    BlocksHas(target[..n], block, target[n].kind.inode);
    if i :| 0 <= i < n && source[..n][i].kind.inode == source[n].kind.inode {
      assert target[..n][i].kind.Regular? && target[..n][i].kind.inode == target[n].kind.inode;
    }
    if i :| 0 <= i < n && target[..n][i].kind.inode == target[n].kind.inode {
      assert source[..n][i].kind.Regular? && source[..n][i].kind.inode == source[n].kind.inode;
    }
  }

  /** Paths of one inode have one size. */
  ghost predicate OneSizePerInode(entries: seq<Entry>) {
    forall i, j | 0 <= i < |entries| && 0 <= j < |entries| && entries[i].kind.Regular? && entries[j].kind.Regular?
                  && entries[i].kind.inode == entries[j].kind.inode :: entries[i].kind.size == entries[j].kind.size
  }

  lemma {:induction false} BlocksValue(entries: seq<Entry>, block: nat, i: nat)
    requires block > 0 && OneSizePerInode(entries) && i < |entries| && entries[i].kind.Regular?
    ensures entries[i].kind.inode in Blocks(entries, block)
    ensures Blocks(entries, block)[entries[i].kind.inode] == Rounded(entries[i].kind.size, block)
  {
    var n := |entries| - 1;
    var init := entries[..n];
    assert forall k | 0 <= k < n :: init[k] == entries[k];
    if i < n {
      BlocksValue(init, block, i);
    } else if entries[i].kind.inode in Blocks(init, block) {
      BlocksHas(init, block, entries[i].kind.inode);
      var k :| 0 <= k < |init| && init[k].kind.Regular? && init[k].kind.inode == entries[i].kind.inode;
      BlocksValue(init, block, k);
    }
  }

  lemma {:induction false} CopiedHas(entries: seq<Entry>, node: string, e: Entry)
    ensures e in Copied(entries, node) <==> e in entries && e.kind.Regular? && e.path != node
  {
    if entries != [] {
      var n := |entries| - 1;
      CopiedHas(entries[..n], node, e);
      assert entries == entries[..n] + [entries[n]];
    }
  }

  lemma CopiedSizes(entries: seq<Entry>, node: string)
    requires OneSizePerInode(entries)
    ensures OneSizePerInode(Copied(entries, node))
  {
    var copied := Copied(entries, node);
    forall i, j | 0 <= i < |copied| && 0 <= j < |copied| && copied[i].kind.Regular? && copied[j].kind.Regular?
                  && copied[i].kind.inode == copied[j].kind.inode
      ensures copied[i].kind.size == copied[j].kind.size
    {
      CopiedHas(entries, node, copied[i]);
      CopiedHas(entries, node, copied[j]);
      assert copied[i] in copied && copied[j] in copied;
    }
  }

  /** Every inode of the stage is copied, except for one that only the staged Node has. */
  lemma CopiedInode(entries: seq<Entry>, node: string, n: nat, block: nat, inode: nat)
    requires block > 0 && OneSizePerInode(entries) && OneEntryPerPath(entries)
    requires n < |entries| && entries[n].path == node && entries[n].kind.Regular?
    ensures var all, copied := Blocks(entries, block), Blocks(Copied(entries, node), block);
            && (inode in all <==> inode in copied || inode == entries[n].kind.inode)
            && (inode in copied ==> all[inode] == copied[inode])
  {
    var list := Copied(entries, node);
    BlocksHas(entries, block, inode);
    BlocksHas(list, block, inode);
    CopiedSizes(entries, node);
    if i :| 0 <= i < |list| && list[i].kind.Regular? && list[i].kind.inode == inode {
      CopiedHas(entries, node, list[i]);
      assert list[i] in list;
      var k :| 0 <= k < |entries| && entries[k] == list[i];
      BlocksValue(list, block, i);
      BlocksValue(entries, block, k);
    } else if i :| 0 <= i < |entries| && entries[i].kind.Regular? && entries[i].kind.inode == inode {
      CopiedHas(entries, node, entries[i]);
      assert entries[i] in entries;
      assert entries[i] !in list;
      SamePath(entries, i, n);
    }
  }

  lemma SamePath(entries: seq<Entry>, i: nat, j: nat)
    requires OneEntryPerPath(entries) && i < |entries| && j < |entries| && entries[i].path == entries[j].path
    ensures entries[i] == entries[j]
  {
  }

  /**
   * The copies and a separate Node take what the projection counts, and the Node once more exactly when
   * another path of the stage shares its inode.
   */
  lemma ExportTakes(entries: seq<Entry>, node: string, n: nat, target: seq<Entry>, block: nat)
    requires block > 0 && OneSizePerInode(entries) && OneEntryPerPath(entries)
    requires n < |entries| && entries[n].path == node && entries[n].kind.Regular?
    requires SameSharing(Copied(entries, node), target)
    ensures var shared := entries[n].kind.inode in Blocks(Copied(entries, node), block);
            var nodeBytes := Rounded(entries[n].kind.size, block);
            Total(Blocks(target, block)) + nodeBytes ==
            Total(Blocks(entries, block)) + if shared then nodeBytes else 0
  {
    var all, copied := Blocks(entries, block), Blocks(Copied(entries, node), block);
    var inode, nodeBytes := entries[n].kind.inode, Rounded(entries[n].kind.size, block);
    SharingKeepsBlocks(Copied(entries, node), target, block);
    BlocksValue(entries, block, n);
    forall i
      ensures (i in all <==> i in copied || i == inode) && (i in copied ==> all[i] == copied[i])
    {
      if i >= 0 {
        CopiedInode(entries, node, n, block, i);
      }
    }
    if inode in copied {
      assert all == copied;
    } else {
      assert all == copied[inode := nodeBytes];
      TotalGrows(copied, inode, nodeBytes);
    }
  }
}
