/** What the release root uses on its disk, and whether another release is admitted. */
module ReleaseBudget {
  import opened Prelude
  import opened Sums
  import opened ExportStage

  /** An entry of the walk as `lstat` shows it; its blocks are of 512 bytes. */
  datatype Info = Info(device: nat, inode: nat, blocks: nat)

  /** The blocks of each inode on a device; the first entry of an inode decides. */
  function UsedBlocks(infos: seq<Info>, device: nat): map<nat, nat> {
    if infos == [] then map[]
    else
      var m, last := UsedBlocks(infos[..|infos| - 1], device), infos[|infos| - 1];
      if last.device == device && last.inode !in m then m[last.inode := last.blocks] else m
  }

  /** `allocated_bytes`: every inode of the device once, however many names it has. */
  method AllocatedBytes(infos: seq<Info>, device: nat) returns (bytes: nat)
    ensures bytes == 512 * Total(UsedBlocks(infos, device))
  {
    var seen: set<nat> := {};
    bytes := 0;
    for i := 0 to |infos|
      invariant seen == UsedBlocks(infos[..i], device).Keys
      invariant bytes == 512 * Total(UsedBlocks(infos[..i], device))
    {
      var info := infos[i];
      assert infos[..i + 1][..i] == infos[..i];
      if info.device != device {
        continue;
      }
      if info.inode !in seen {
        TotalGrows(UsedBlocks(infos[..i], device), info.inode, info.blocks);
        seen := seen + {info.inode};
        bytes := bytes + info.blocks * 512;
      }
    }
    assert infos[..|infos|] == infos;
  }

  /** Another name for something that is counted takes nothing. */
  lemma HardLinksAreFree(infos: seq<Info>, device: nat, again: Info)
    requires again.device == device && again.inode in UsedBlocks(infos, device)
    ensures Total(UsedBlocks(infos + [again], device)) == Total(UsedBlocks(infos, device))
  {
    assert (infos + [again])[..|infos|] == infos;
  }

  /** `check_budget` on the number of releases, the bytes in use and the free bytes. */
  method CheckBudget(releases: nat, used: nat, free: nat, maxCount: int, maxBytes: int, reserve: int, block: nat)
    returns (error: Option<string>)
    ensures error.None? <==>
              && maxCount > 0 && maxBytes > 0 && reserve > 0
              && releases < maxCount && Admitted(used, free, maxBytes, reserve, block)
  {
    if maxCount <= 0 || maxBytes <= 0 || reserve <= 0 {
      return Some("INVALID_RELEASE_BUDGET");
    }
    if releases >= maxCount {
      return Some("OPS_RELEASE_COUNT_LIMIT");
    }
    var growth := StagingGrowth(block);
    if used + growth > maxBytes {
      return Some("OPS_RELEASE_BYTES_LIMIT");
    }
    if free < reserve + growth {
      return Some("OPS_RELEASE_FREE_SPACE_RESERVE");
    }
    return None;
  }
}
