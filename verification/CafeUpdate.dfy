/** A cafe's whole update: plan, repair, download into temporary blocks, merge. */
module CafeUpdate {
  import opened Common
  import opened Manifest
  import opened ChunkMap
  import opened UpdatePlan
  import opened Merge
  import opened MergeTheorems

  /** Blocks of every file of the new version that is missing on disk. */
  function RepairSet(next: seq<FileEntry>, d: Disk): set<Hash> {
    set f, c | f in next && f.name !in d && c in f.chunks :: c.hash
  }

  /** What the cafe downloads before it merges. */
  function DownloadSet(next: seq<FileEntry>, prev: seq<FileEntry>, temp: set<Hash>, d: Disk): set<Hash> {
    (ChunkSet(next) - ChunkSet(prev) - temp) + RepairSet(next, d)
  }

  method CollectRepair(next: seq<FileEntry>, d: Disk) returns (repair: set<Hash>)
    ensures repair == RepairSet(next, d)
  {
    repair := {};
    for i := 0 to |next|
      invariant repair == RepairSet(next[..i], d)
    {
      var f := next[i];
      assert next[..i + 1] == next[..i] + [f];
      if f.name !in d {
        for j := 0 to |f.chunks|
          invariant repair == RepairSet(next[..i], d) + (set c | c in f.chunks[..j] :: c.hash)
        {
          assert f.chunks[..j + 1] == f.chunks[..j] + [f.chunks[j]];
          repair := repair + {f.chunks[j].hash};
        }
        assert f.chunks[..|f.chunks|] == f.chunks;
      }
    }
    assert next[..|next|] == next;
  }

  /** Block by block: in the new version, and of a missing file or neither temporary nor in the old version. */
  lemma DownloadSetIs(next: seq<FileEntry>, prev: seq<FileEntry>, temp: set<Hash>, d: Disk, h: Hash)
    ensures h in DownloadSet(next, prev, temp, d) <==>
      exists f :: f in next && HasChunk(f, h) && (f.name !in d || (h !in temp && !InVersion(prev, h)))
  {
    hide ChunkSet;
    ChunkSetIsVersion(next, h);
    ChunkSetIsVersion(prev, h);
    if h in RepairSet(next, d) {
      var f, c :| f in next && f.name !in d && c in f.chunks && c.hash == h;
      assert HasChunk(f, h);
    }
  }

  /** The sorted, duplicate-free download list: the plan's blocks and the repair blocks. */
  method DownloadList(next: seq<FileEntry>, prev: seq<FileEntry>, temp: set<Hash>, d: Disk) returns (hashes: seq<Hash>)
    ensures Sorted(hashes) && Distinct(hashes) && Elements(hashes) == DownloadSet(next, prev, temp, d)
    ensures forall h :: h in hashes <==>
      exists f :: f in next && HasChunk(f, h) && (f.name !in d || (h !in temp && !InVersion(prev, h)))
  {
    hide RepairSet;
    hide ChunkSet;
    hide HasChunk;
    hide InVersion;
    var plan := Compute(next, prev, temp);
    var repair := CollectRepair(next, d);
    var all: seq<Hash> := plan.chunksToDownload;
    var todo := repair;
    while todo != {}
      invariant todo <= repair && Distinct(all)
      invariant Elements(all) + todo == Elements(plan.chunksToDownload) + repair
      decreases todo
    {
      var h: Hash :| h in todo;
      todo := todo - {h};
      if h !in all {
        assert Elements(all + [h]) == Elements(all) + {h};
        all := all + [h];
      } else {
        assert h in Elements(all);
      }
    }
    hashes := SortHashes(all);
    assert Elements(hashes) == Elements(all);
    assert Elements(hashes) == DownloadSet(next, prev, temp, d);
    forall h: Hash
      ensures h in hashes <==>
        exists f :: f in next && HasChunk(f, h) && (f.name !in d || (h !in temp && !InVersion(prev, h)))
    {
      hide DownloadSet;
      assert h in hashes <==> h in Elements(hashes);
      DownloadSetIs(next, prev, temp, d, h);
    }
  }

  // ---------- when a whole update succeeds ----------

  /** The temporary blocks hold what was there before and everything that had to be downloaded. */
  ghost predicate Downloaded(u: Update, before: set<Hash>) {
    before <= u.temp.Keys && DownloadSet(u.next, u.prev, before, u.disk) <= u.temp.Keys
  }

  /**
   * No due entry lost a source: where the block's first place is an old file, that file still shows the block there,
   * or is replaced before by bytes that keep it, or is missing and the block is temporary.
   */
  ghost predicate NoLostSource(u: Update) {
    forall i, k :: 0 <= i < |u.next| && Due(u, i) && 0 <= k < |u.next[i].chunks| ==>
      KeepsSource(u, i, u.next[i].chunks[k].hash)
  }

  ghost predicate KeepsSource(u: Update, i: nat, hash: Hash)
    requires i < |u.next|
  {
    if OwnSource(u, u.next[i], hash) then OwnOk(u, u.next[i], hash)
    else hash in BuildMap(u.prev) ==> SharedOk(u, i, BuildMap(u.prev)[hash], hash)
  }

  lemma NextChunk(files: seq<FileEntry>, i: nat, k: nat)
    requires i < |files| && k < |files[i].chunks|
    ensures files[i].chunks[k].hash in ChunkSet(files)
    ensures InVersion(files, files[i].chunks[k].hash)
  {
    assert files[i] in files && HasChunk(files[i], files[i].chunks[k].hash);
    ChunkSetIsVersion(files, files[i].chunks[k].hash);
  }

  lemma SourceAfterDownload(digest: Digest, u: Update, before: set<Hash>, i: nat, k: nat)
    requires Setting(digest, u) && Downloaded(u, before)
    requires i < |u.next| && k < |u.next[i].chunks|
    ensures SourceOk(u, i, u.next[i].chunks[k].hash) <==> KeepsSource(u, i, u.next[i].chunks[k].hash)
  {
    hide BuildMap;
    hide ChunkSet;
    hide SharedOk;
    hide OwnSource;
    hide OwnOk;
    var hash := u.next[i].chunks[k].hash;
    if hash !in BuildMap(u.prev) {
      BuildMapKeys(u.prev, hash);
      ChunkSetIsVersion(u.prev, hash);
      NextChunk(u.next, i, k);
      assert hash in DownloadSet(u.next, u.prev, before, u.disk) || hash in before;
    }
  }

  lemma SourcesAfterDownload(digest: Digest, u: Update, before: set<Hash>)
    requires Setting(digest, u) && Downloaded(u, before)
    ensures SourcesOk(u, |u.next|) <==> NoLostSource(u)
  {
    hide SourceOk;
    hide KeepsSource;
    hide Due;
    hide Setting;
    hide Downloaded;
    forall i, k | 0 <= i < |u.next| && 0 <= k < |u.next[i].chunks|
      ensures SourceOk(u, i, u.next[i].chunks[k].hash) <==> KeepsSource(u, i, u.next[i].chunks[k].hash)
    {
      SourceAfterDownload(digest, u, before, i, k);
    }
    if SourcesOk(u, |u.next|) {
      forall i, k | 0 <= i < |u.next| && Due(u, i) && 0 <= k < |u.next[i].chunks|
        ensures KeepsSource(u, i, u.next[i].chunks[k].hash)
      {
        assert EntryOk(u, i);
      }
    }
  }

  /**
   * Over any disk, be it of a first attempt, a retry, another version abandoned half way or a damaged one: after
   * downloading the blocks that are neither old nor temporary and those of missing files, the merge has no failures if
   * and only if no due entry lost a source.
   */
  lemma WholeUpdateSucceedsIff(digest: Digest, u: Update, before: set<Hash>)
    requires Setting(digest, u) && Downloaded(u, before) && NoFalseAccept(digest, u)
    ensures MergeFiles(digest, u.disk, u.temp, u.prev, u.next).1.failed == [] <==> NoLostSource(u)
  {
    hide *;
    SourcesAfterDownload(digest, u, before);
    MergeSucceedsIff(digest, u);
  }

  /** And then the disk holds exactly the new version if and only if the files that were not due held it already. */
  lemma WholeUpdateInstallsIff(digest: Digest, u: Update, before: set<Hash>)
    requires Setting(digest, u) && Downloaded(u, before) && NoLostSource(u)
    ensures AllKnown(u.lib, u.next)
    ensures var (d, summary) := MergeFiles(digest, u.disk, u.temp, u.prev, u.next);
            summary.failed == [] && (Installed(u.lib, d, u.next) <==> IdleHold(u)) &&
            forall n :: n in Dropped(u.prev, u.next) ==> n !in d
  {
    hide *;
    SourcesAfterDownload(digest, u, before);
    MergeInstallsIff(digest, u);
  }

  /** Every old file is on disk with its old bytes: the usual first attempt. */
  ghost predicate AllOld(u: Update) {
    forall i :: 0 <= i < |u.prev| ==> HoldsOld(u, u.prev[i].name)
  }

  /** On a first attempt only shared files replaced earlier in the same run can be lost as sources. */
  lemma FirstAttemptSucceedsIff(digest: Digest, u: Update, before: set<Hash>)
    requires Setting(digest, u) && Downloaded(u, before) && AllOld(u) && NoFalseAccept(digest, u)
    ensures MergeFiles(digest, u.disk, u.temp, u.prev, u.next).1.failed == []
       <==> forall i, k :: 0 <= i < |u.next| && Due(u, i) && 0 <= k < |u.next[i].chunks| ==>
         NotOverwritten(u, i, u.next[i].chunks[k].hash)
  {
    WholeUpdateSucceedsIff(digest, u, before);
    hide MergeFiles;
    hide KeepsSource;
    hide NotOverwritten;
    hide Due;
    hide Setting;
    hide Downloaded;
    hide AllOld;
    hide NoFalseAccept;
    forall i, k | 0 <= i < |u.next| && 0 <= k < |u.next[i].chunks|
      ensures KeepsSource(u, i, u.next[i].chunks[k].hash) <==> NotOverwritten(u, i, u.next[i].chunks[k].hash)
    {
      FirstAttemptSource(digest, u, i, u.next[i].chunks[k].hash);
    }
  }

  ghost predicate NotOverwritten(u: Update, i: nat, hash: Hash)
    requires i < |u.next|
  {
    (!OwnSource(u, u.next[i], hash) && hash in BuildMap(u.prev) && Rewritten(u, i, BuildMap(u.prev)[hash].name))
      ==> KeepsBlock(u, BuildMap(u.prev)[hash], hash)
  }

  lemma FirstAttemptSource(digest: Digest, u: Update, i: nat, hash: Hash)
    requires Setting(digest, u) && AllOld(u) && i < |u.next|
    ensures KeepsSource(u, i, hash) <==> NotOverwritten(u, i, hash)
  {
    hide BuildMap;
    hide FileMap;
    hide HoldsOld;
    hide Rewritten;
    hide KeepsBlock;
    hide StartShows;
    if OwnSource(u, u.next[i], hash) {
      IndexKeys(u.prev, u.next[i].name);
      var f := FileIndex(u.prev)[u.next[i].name];
      EntryOfName(u.prev, f);
      FileMapPoints(u.lib, f, hash);
      OldShows(digest, u, f, FileMap(f)[hash], hash);
    } else if hash in BuildMap(u.prev) {
      var f := BuildMapPoints(u.lib, u.prev, hash);
      EntryOfName(u.prev, f);
      OldShows(digest, u, f, BuildMap(u.prev)[hash], hash);
    }
  }

  /** A file with its old bytes shows its blocks. */
  lemma OldShows(digest: Digest, u: Update, f: FileEntry, loc: Loc, hash: Hash)
    requires Setting(digest, u) && AllOld(u) && f in u.prev && PointsAt(u.lib, f, hash, loc)
    ensures loc.name in u.disk && StartShows(u, loc, hash)
  {
    hide Content;
    hide FileIndex;
    EntryOfName(u.prev, f);
    ReadPoints(u.lib, f, hash, loc);
    var k :| 0 <= k < |u.prev| && u.prev[k] == f;
    assert HoldsOld(u, u.prev[k].name);
  }

  /** Installing a game for the first time always succeeds. */
  lemma FreshInstall(digest: Digest, u: Update, before: set<Hash>)
    requires Setting(digest, u) && Downloaded(u, before) && u.prev == []
    ensures var (d, summary) := MergeFiles(digest, u.disk, u.temp, u.prev, u.next);
            summary.failed == [] && Installed(u.lib, d, u.next)
  {
    assert BuildMap([]) == map[];
    assert NoLostSource(u);
    WholeUpdateInstallsIff(digest, u, before);
  }

  // ---------- repairing the current version ----------

  lemma RepairSource(digest: Digest, u: Update, before: set<Hash>, i: nat, k: nat)
    requires Clean(digest, u) && Downloaded(u, before) && u.prev == u.next
    requires i < |u.next| && Due(u, i) && k < |u.next[i].chunks|
    ensures SourceOk(u, i, u.next[i].chunks[k].hash)
  {
    hide BuildMap;
    hide ChunkSet;
    hide FileMap;
    hide FileIndex;
    hide Content;
    var e := u.next[i];
    var hash := e.chunks[k].hash;
    IndexUnique(u.next, i);
    assert e.name !in u.disk;
    assert e in u.next && e.chunks[k] in e.chunks;
    assert hash in RepairSet(u.next, u.disk);
    NextChunk(u.next, i, k);
    BuildMapKeys(u.prev, hash);
    var loc := BuildMap(u.prev)[hash];
    var f := BuildMapPoints(u.lib, u.prev, hash);
    EntryOfName(u.next, f);
    ReadPoints(u.lib, f, hash, loc);
    assert KeepsBlock(u, loc, hash);
    StartShowsIff(digest, u, f, loc, hash);
  }

  /** Re-running the current version restores every missing file, whatever subset is missing and in whatever order. */
  lemma RepairRestores(digest: Digest, u: Update, before: set<Hash>)
    requires Clean(digest, u) && Downloaded(u, before) && u.prev == u.next
    ensures var (d, summary) := MergeFiles(digest, u.disk, u.temp, u.prev, u.next);
            summary.failed == [] && Installed(u.lib, d, u.next)
  {
    hide *;
    assert SourcesOk(u, |u.next|) by { RepairSources(digest, u, before); }
    MergeInstalls(digest, u);
  }

  lemma RepairSources(digest: Digest, u: Update, before: set<Hash>)
    requires Clean(digest, u) && Downloaded(u, before) && u.prev == u.next
    ensures SourcesOk(u, |u.next|)
  {
    hide SourceOk;
    hide Due;
    hide Clean;
    hide Downloaded;
    forall i, k | 0 <= i < |u.next| && Due(u, i) && 0 <= k < |u.next[i].chunks|
      ensures SourceOk(u, i, u.next[i].chunks[k].hash)
    {
      RepairSource(digest, u, before, i, k);
    }
  }
}
