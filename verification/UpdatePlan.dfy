/** What an update must do: compare two versions file by file and block by block. */
module UpdatePlan {
  import opened Common
  import opened Manifest
  import opened ChunkMap

  datatype UpdatePlan = UpdatePlan(
    filesToDownload: seq<Name>,
    filesToUpdate: seq<Name>,
    filesToDelete: seq<Bytes>,
    chunksToDownload: seq<Hash>,
    downloadBytes: nat)

  /** Name to entry; a repeated name keeps its last entry. */
  function FileIndex(files: seq<FileEntry>): map<Name, FileEntry>
    decreases |files|
  {
    if files == [] then map[]
    else var last := |files| - 1; FileIndex(files[..last])[files[last].name := files[last]]
  }

  function Names(files: seq<FileEntry>): set<Bytes> {
    set f | f in files :: f.name
  }

  function AllChunks(files: seq<FileEntry>): seq<ChunkMeta>
    decreases |files|
  {
    if files == [] then []
    else var last := |files| - 1; AllChunks(files[..last]) + files[last].chunks
  }

  /** The distinct block hashes of a version. */
  function ChunkSet(files: seq<FileEntry>): set<Hash> {
    set c | c in AllChunks(files) :: c.hash
  }

  /** The first block of every hash outside `skip`, in manifest order. */
  function Wanted(chunks: seq<ChunkMeta>, skip: set<Hash>): seq<ChunkMeta>
    decreases |chunks|
  {
    if chunks == [] then []
    else
      var last := |chunks| - 1;
      var before := Wanted(chunks[..last], skip);
      if chunks[last].hash in skip || chunks[last].hash in HashList(before) then before else before + [chunks[last]]
  }

  function HashList(chunks: seq<ChunkMeta>): (hs: seq<Hash>)
    ensures |hs| == |chunks| && forall i :: 0 <= i < |hs| ==> hs[i] == chunks[i].hash
  {
    seq(|chunks|, i requires 0 <= i < |chunks| => chunks[i].hash)
  }

  // ---------- facts about versions ----------

  lemma {:induction false} IndexKeys(files: seq<FileEntry>, name: Name)
    ensures name in FileIndex(files) <==> name in Names(files)
    ensures name in FileIndex(files) ==> FileIndex(files)[name] in files && FileIndex(files)[name].name == name
    decreases |files|
  {
    if files != [] {
      var last := |files| - 1;
      IndexKeys(files[..last], name);
      assert files == files[..last] + [files[last]];
    }
  }

  /** With unique names the index is exactly the file list. */
  lemma IndexUnique(files: seq<FileEntry>, i: nat)
    requires UniqueNames(files) && i < |files|
    ensures files[i].name in FileIndex(files) && FileIndex(files)[files[i].name] == files[i]
  {
    IndexKeys(files, files[i].name);
    assert files[i] in files;
    var j :| 0 <= j < |files| && files[j] == FileIndex(files)[files[i].name];
  }

  lemma {:induction false} ChunkSetIsVersion(files: seq<FileEntry>, hash: Hash)
    ensures hash in ChunkSet(files) <==> InVersion(files, hash)
    decreases |files|
  {
    if files != [] {
      var last := |files| - 1;
      var f := files[last];
      ChunkSetIsVersion(files[..last], hash);
      assert files == files[..last] + [f];
      if HasChunk(f, hash) {
        var i :| 0 <= i < |f.chunks| && f.chunks[i].hash == hash;
        assert f.chunks[i] in AllChunks(files);
      }
      if hash in ChunkSet(files) {
        var c :| c in AllChunks(files) && c.hash == hash;
        if c in AllChunks(files[..last]) {
          assert hash in ChunkSet(files[..last]);
        } else {
          var i :| 0 <= i < |f.chunks| && f.chunks[i] == c;
        }
      }
      if hash in ChunkSet(files[..last]) {
        var c :| c in AllChunks(files[..last]) && c.hash == hash;
        assert c in AllChunks(files);
      }
    }
  }

  lemma {:induction false} WantedHashes(chunks: seq<ChunkMeta>, skip: set<Hash>)
    ensures Distinct(HashList(Wanted(chunks, skip)))
    ensures forall h :: h in HashList(Wanted(chunks, skip)) <==> h !in skip && h in HashList(chunks)
    decreases |chunks|
  {
    if chunks != [] {
      var last := |chunks| - 1;
      WantedHashes(chunks[..last], skip);
      assert HashList(chunks) == HashList(chunks[..last]) + [chunks[last].hash];
      var before := Wanted(chunks[..last], skip);
      assert HashList(before + [chunks[last]]) == HashList(before) + [chunks[last].hash];
    }
  }

  lemma HashListOfVersion(files: seq<FileEntry>, hash: Hash)
    ensures hash in HashList(AllChunks(files)) <==> hash in ChunkSet(files)
  {
    if hash in ChunkSet(files) {
      var c :| c in AllChunks(files) && c.hash == hash;
      var i :| 0 <= i < |AllChunks(files)| && AllChunks(files)[i] == c;
      assert HashList(AllChunks(files))[i] == hash;
    }
  }

  /** Of entries with the same name the last one is kept. */
  lemma {:induction false} IndexLast(files: seq<FileEntry>, k: nat)
    requires k < |files| && forall j :: k < j < |files| ==> files[j].name != files[k].name
    ensures files[k].name in FileIndex(files) && FileIndex(files)[files[k].name] == files[k]
    decreases |files|
  {
    var last := |files| - 1;
    if k < last {
      IndexLast(files[..last], k);
    }
  }

  /** A block is wanted if and only if its hash is not skipped and no earlier block has it. */
  lemma {:induction false} WantedAt(chunks: seq<ChunkMeta>, skip: set<Hash>, i: nat)
    requires i < |chunks|
    ensures Wanted(chunks[..0], skip) == []
    ensures Wanted(chunks[..i + 1], skip)
         == Wanted(chunks[..i], skip)
            + if chunks[i].hash !in skip && forall j :: 0 <= j < i ==> chunks[j].hash != chunks[i].hash
              then [chunks[i]] else []
  {
    assert chunks[..i + 1][..i] == chunks[..i] && chunks[..i + 1][i] == chunks[i];
    WantedHashes(chunks[..i], skip);
    var h := chunks[i].hash;
    if h in HashList(chunks[..i]) {
      var j :| 0 <= j < i && HashList(chunks[..i])[j] == h;
      assert chunks[j].hash == h;
    }
    forall j | 0 <= j < i && chunks[j].hash == h
      ensures h in HashList(chunks[..i])
    {
      assert HashList(chunks[..i])[j] == h;
    }
    hide HashList;
  }

  // ---------- the planner ----------

  method CompareFiles(next: seq<FileEntry>, oldFiles: map<Name, FileEntry>)
    returns (toDownload: seq<Name>, toUpdate: seq<Name>)
    ensures forall n :: n in toDownload <==> n in Names(next) && n !in oldFiles
    ensures forall n :: n in toUpdate
              <==> exists f :: f in next && f.name == n && n in oldFiles && oldFiles[n].fileHash != f.fileHash
  {
    toDownload, toUpdate := [], [];
    for i := 0 to |next|
      invariant forall n :: n in toDownload <==> n in Names(next[..i]) && n !in oldFiles
      invariant forall n :: n in toUpdate
                  <==> exists f :: f in next[..i] && f.name == n && n in oldFiles && oldFiles[n].fileHash != f.fileHash
    {
      assert next[..i + 1] == next[..i] + [next[i]];
      if next[i].name !in oldFiles {
        toDownload := toDownload + [next[i].name];
      } else if oldFiles[next[i].name].fileHash != next[i].fileHash {
        toUpdate := toUpdate + [next[i].name];
      }
    }
    assert next[..|next|] == next;
  }

  method Difference(oldNames: set<Bytes>, newNames: set<Bytes>) returns (gone: seq<Bytes>)
    ensures Sorted(gone) && Distinct(gone) && forall n :: n in gone <==> n in oldNames && n !in newNames
  {
    var walk: seq<Bytes> := [];
    var todo := oldNames;
    while todo != {}
      invariant todo <= oldNames
      invariant Distinct(walk) && forall n :: n in walk <==> n in oldNames && n !in todo && n !in newNames
      decreases todo
    {
      var n :| n in todo;
      todo := todo - {n};
      if n !in newNames {
        walk := walk + [n];
      }
    }
    gone := SortBytes(walk);
    DistinctPermutation(walk, gone);
    assert forall n :: n in gone <==> n in multiset(gone);
    assert forall n :: n in walk <==> n in multiset(walk);
  }

  lemma WantedStep(done: seq<ChunkMeta>, c: ChunkMeta, skip: set<Hash>)
    ensures var before, after := Wanted(done, skip), Wanted(done + [c], skip);
            var add := c.hash !in skip && c.hash !in HashList(before);
            HashList(after) == HashList(before) + (if add then [c.hash] else []) &&
            TotalLen(after) == TotalLen(before) + (if add then c.len else 0)
  {
    var before := Wanted(done, skip);
    assert (done + [c])[..|done|] == done;
    if c.hash !in skip && c.hash !in HashList(before) {
      assert (before + [c])[..|before|] == before;
    }
  }

  lemma WantedNothing(skip: set<Hash>)
    ensures HashList(Wanted([], skip)) == [] && TotalLen(Wanted([], skip)) == 0
  {
  }

  lemma AllChunksNone(files: seq<FileEntry>)
    ensures AllChunks(files[..0]) == []
  {
  }

  lemma AllChunksStep(files: seq<FileEntry>, i: nat)
    requires i < |files|
    ensures AllChunks(files[..i + 1]) == AllChunks(files[..i]) + files[i].chunks
  {
    assert files[..i + 1][..i] == files[..i];
  }

  /** One file of the walk: `done` are the blocks of the files before it. */
  method CollectFile(chunks: seq<ChunkMeta>, oldChunks: set<Hash>, temp: set<Hash>, hashes0: seq<Hash>, bytes0: nat,
      seen0: set<Hash>, ghost done: seq<ChunkMeta>)
    returns (hashes: seq<Hash>, bytes: nat, seen: set<Hash>)
    requires hashes0 == HashList(Wanted(done, oldChunks + temp)) && bytes0 == TotalLen(Wanted(done, oldChunks + temp))
    requires forall h :: h in seen0 <==> h in hashes0
    ensures hashes == HashList(Wanted(done + chunks, oldChunks + temp))
    ensures bytes == TotalLen(Wanted(done + chunks, oldChunks + temp))
    ensures forall h :: h in seen <==> h in hashes
  {
    hide Wanted;
    hide TotalLen;
    hide HashList;
    hashes, bytes, seen := hashes0, bytes0, seen0;
    assert done + chunks[..0] == done;
    for j := 0 to |chunks|
      invariant hashes == HashList(Wanted(done + chunks[..j], oldChunks + temp))
      invariant bytes == TotalLen(Wanted(done + chunks[..j], oldChunks + temp))
      invariant forall h :: h in seen <==> h in hashes
    {
      var c := chunks[j];
      WantedStep(done + chunks[..j], c, oldChunks + temp);
      assert done + chunks[..j + 1] == done + chunks[..j] + [c];
      if !(c.hash in oldChunks || c.hash in temp) && c.hash !in seen {
        seen := seen + {c.hash};
        hashes := hashes + [c.hash];
        bytes := bytes + c.len;
      }
    }
    assert chunks[..|chunks|] == chunks;
  }

  method CollectWanted(next: seq<FileEntry>, oldChunks: set<Hash>, temp: set<Hash>)
    returns (hashes: seq<Hash>, bytes: nat)
    ensures hashes == HashList(Wanted(AllChunks(next), oldChunks + temp))
    ensures bytes == TotalLen(Wanted(AllChunks(next), oldChunks + temp))
  {
    hashes, bytes := [], 0;
    var seen: set<Hash> := {};
    ghost var skip := oldChunks + temp;
    hide *;
    WantedNothing(skip);
    AllChunksNone(next);
    for i := 0 to |next|
      invariant hashes == HashList(Wanted(AllChunks(next[..i]), skip))
      invariant bytes == TotalLen(Wanted(AllChunks(next[..i]), skip))
      invariant forall h :: h in seen <==> h in hashes
    {
      ghost var done := AllChunks(next[..i]);
      hashes, bytes, seen := CollectFile(next[i].chunks, oldChunks, temp, hashes, bytes, seen, done);
      AllChunksStep(next, i);
    }
    assert next[..|next|] == next;
  }

  /**
   * The plan for going from `prev` (empty for a fresh game) to `next` with the blocks in `temp` at hand. New, changed
   * and dropped names are told apart; the block list is the new blocks minus the old and temporary ones, each
   * once, in manifest order.
   */
  method Compute(next: seq<FileEntry>, prev: seq<FileEntry>, temp: set<Hash>) returns (plan: UpdatePlan)
    ensures forall n :: n in plan.filesToDownload <==> n in Names(next) - Names(prev)
    ensures forall n :: n in plan.filesToUpdate
              <==> exists f ::
                f in next && f.name == n && n in FileIndex(prev) && FileIndex(prev)[n].fileHash != f.fileHash
    ensures Sorted(plan.filesToDelete) && Distinct(plan.filesToDelete)
    ensures forall n :: n in plan.filesToDelete <==> n in Names(prev) - Names(next)
    ensures Distinct(plan.chunksToDownload)
    ensures Elements(plan.chunksToDownload) == ChunkSet(next) - ChunkSet(prev) - temp
    ensures plan.chunksToDownload == HashList(Wanted(AllChunks(next), ChunkSet(prev) + temp))
    ensures plan.downloadBytes == TotalLen(Wanted(AllChunks(next), ChunkSet(prev) + temp))
  {
    hide Wanted;
    hide ChunkSet;
    hide FileIndex;
    var oldFiles := FileIndex(prev);
    forall n: Name ensures n in oldFiles <==> n in Names(prev) {
      IndexKeys(prev, n);
    }
    var toDownload, toUpdate := CompareFiles(next, oldFiles);
    var gone := Difference(Names(prev), Names(next));
    var hashes, bytes := CollectWanted(next, ChunkSet(prev), temp);
    WantedHashes(AllChunks(next), ChunkSet(prev) + temp);
    forall h: Hash ensures h in HashList(AllChunks(next)) <==> h in ChunkSet(next) {
      HashListOfVersion(next, h);
    }
    plan := UpdatePlan(toDownload, toUpdate, gone, hashes, bytes);
  }
}
