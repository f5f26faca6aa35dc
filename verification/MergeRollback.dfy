/** Going back to the old version after an update stopped half way: nothing is due, so nothing is repaired. */
module MergeRollback {
  import opened Common
  import opened Manifest
  import opened ChunkMap
  import opened UpdatePlan
  import opened Merge
  import opened MergePermute
  import opened MergeSwap
  import opened CafeUpdate
  import opened CafeStore

  /**
   * The disk is the one `PermuteNeverRetries` leaves. Updating from the old version to itself downloads nothing, merges
   * nothing and reports no failure; the file keeps the new bytes and the blocks reported are served wrong.
   */
  lemma RollbackKeepsForeignBytes(digest: Digest, x: Byte, y: Byte)
    requires digest([x]) != digest([y])
    ensures var v1 := One(digest([x]), digest([y]), digest([x, y]));
            var d := map[A := [y, x]];
            DownloadSet(v1, v1, {}, d) == {} &&
            MergeFiles(digest, d, map[], v1, v1) == (d, Summary(0, 0, [])) &&
            d[A] != [x, y] && ReadChunk(map[], Some(BuildMap(v1)), d, digest([x])) == Found([y])
  {
    var v1 := One(digest([x]), digest([y]), digest([x, y]));
    var d: Disk := map[A := [y, x]];
    OneFacts(digest([x]), digest([y]), digest([x, y]));
    assert !NeedMerge(d, v1, v1[0]);
    assert v1[0].name in d && v1[0] in v1;
    assert RepairSet(v1, d) == {} && ChunkSet(v1) - ChunkSet(v1) == {};
    assert BuildMap(v1) == FileMap(v1[0]) by { OneMap(v1); }
    assert [y, x][0..1] == [y];
    assert |v1| == 1;
    hide One;
    hide FileIndex;
    hide MergeOne;
    UptoStart(digest, d, map[], v1, v1);
    UptoStep(digest, d, map[], v1, v1, 0);
    hide Upto;
    SameName(v1, v1);
    NoneDropped(digest, d, v1, v1);
  }

  lemma OneMap(files: seq<FileEntry>)
    requires |files| == 1
    ensures BuildMap(files) == FileMap(files[0])
  {
    assert files[1..] == [];
    assert AddFiles(FileMap(files[0]), []) == FileMap(files[0]);
    hide AddFile;
  }
}
