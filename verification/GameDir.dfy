/** The game directory of a cafe: the merge as the program runs it, one disk change at a time. */
module GameDir {
  import opened Common
  import opened Manifest
  import opened ChunkMap
  import opened UpdatePlan
  import opened Merge
  import opened MergeSafety

  /** The per-file block maps of a version; a repeated name keeps its last entry's map. */
  function FileMaps(files: seq<FileEntry>): map<Name, ChunkMap> {
    map n | n in FileIndex(files) :: FileMap(FileIndex(files)[n])
  }

  method BuildFileMaps(files: seq<FileEntry>) returns (index: map<Name, FileEntry>, maps: map<Name, ChunkMap>)
    ensures index == FileIndex(files) && maps == FileMaps(files)
  {
    hide FileMap;
    index, maps := map[], map[];
    for i := 0 to |files|
      invariant index == FileIndex(files[..i]) && maps == FileMaps(files[..i])
    {
      assert files[..i + 1][..i] == files[..i];
      var m := BuildFileMap(map[], files[i]);
      assert m == FileMap(files[i]) by { FileMapIs(files[i]); }
      index := index[files[i].name := files[i]];
      maps := maps[files[i].name := m];
    }
    assert files[..|files|] == files;
  }

  lemma FileMapIs(f: FileEntry)
    ensures AddFile(map[], f.name, 0, f.chunks) == FileMap(f)
  {
  }

  class GameDir {
    var files: Disk

    constructor (d: Disk)
      ensures files == d
    {
      files := d;
    }

    /** One block for `name`; any read may fail when `faulty`. */
    method ReadPiece(name: Name, hash: Hash, fromOwn: bool, own: ChunkMap, shared: ChunkMap, temp: Temp, faulty: bool,
        ghost prev: seq<FileEntry>)
      returns (r: Option<Bytes>)
      requires shared == BuildMap(prev)
      requires fromOwn <==> name in FileIndex(prev) && name in files
      requires fromOwn ==> own == FileMap(FileIndex(prev)[name])
      ensures r.Some? || !faulty ==> r == Piece(files, temp, prev, name, hash)
    {
      hide FileMap;
      hide BuildMap;
      hide FileIndex;
      var fails: bool := *;
      if faulty && fails { return None; }
      if fromOwn && hash in own {
        r := ReadExactAt(files[name], own[hash].offset, own[hash].len);
      } else if hash in shared && shared[hash].name in files {
        r := ReadExactAt(files[shared[hash].name], shared[hash].offset, shared[hash].len);
      } else if hash in temp {
        r := Some(temp[hash]);
      } else {
        r := None;
      }
    }

    /** Append the blocks of `entry` to its temporary file, verifying nothing yet. */
    method AssembleNew(digest: Digest, entry: FileEntry, own: Option<ChunkMap>, shared: ChunkMap, temp: Temp,
        faulty: bool,
        ghost prev: seq<FileEntry>)
      returns (r: Option<Bytes>, ghost ops: seq<Op>)
      requires shared == BuildMap(prev)
      requires own == if entry.name in FileIndex(prev) then Some(FileMap(FileIndex(prev)[entry.name])) else None
      modifies this
      ensures r.Some? || !faulty ==> r == Assemble(old(files), temp, prev, entry.name, [], entry.chunks)
      ensures r.Some? ==> files == old(files)[TempName(entry.name) := r.value]
      ensures files - {TempName(entry.name)} == old(files) - {TempName(entry.name)}
      ensures LegalRun(digest, {entry}, old(files), ops) && files == ApplyAll(old(files), ops)
    {
      hide *;
      ghost var start := files;
      var tmp := TempName(entry.name);
      ops := [];
      EmptyRun(digest, {entry}, start);
      var createFails: bool := *;
      if faulty && createFails { return None, ops; }
      TouchRun(digest, entry, start, ops, []);
      files, ops := files[tmp := []], ops + [Touch(entry, [])];
      var fromOwn := own.Some? && entry.name in files;
      var written: Bytes := [];
      assert entry.chunks[0..] == entry.chunks;
      for j := 0 to |entry.chunks|
        invariant files == start[tmp := written]
        invariant Assemble(start, temp, prev, entry.name, [], entry.chunks)
             == Assemble(start, temp, prev, entry.name, written, entry.chunks[j..])
        invariant LegalRun(digest, {entry}, start, ops) && files == ApplyAll(start, ops)
      {
        var ownMap := if own.Some? then own.value else map[];
        var piece := ReadPiece(entry.name, entry.chunks[j].hash, fromOwn, ownMap, shared, temp, faulty, prev);
        AssembleNext(start, temp, prev, entry, written, j);
        if piece.None? { return None, ops; }
        var writeFails: bool := *;
        if faulty && writeFails {
          var torn: nat :| torn <= |piece.value|;
          TouchRun(digest, entry, start, ops, written + piece.value[..torn]);
          files, ops := files[tmp := written + piece.value[..torn]],
            ops + [Touch(entry, written + piece.value[..torn])];
          return None, ops;
        }
        written := written + piece.value;
        TouchRun(digest, entry, start, ops, written);
        files, ops := files[tmp := written], ops + [Touch(entry, written)];
      }
      AssembleDone(start, temp, prev, entry, written);
      r := Some(written);
    }

    /** Verify the assembled bytes, remove the old file, rename the new one into place. */
    method FinishNew(digest: Digest, entry: FileEntry, written: Bytes, faulty: bool, ghost start: Disk)
      returns (ok: bool, ghost ops: seq<Op>)
      requires files == start[TempName(entry.name) := written]
      modifies this
      ensures ok ==> digest(written) == entry.fileHash && TempName(entry.name) != entry.name
                     && files == (start - {TempName(entry.name)})[entry.name := written]
      ensures !ok && !faulty ==> (digest(written) != entry.fileHash || TempName(entry.name) == entry.name)
                                 && files - {TempName(entry.name)} == start - {TempName(entry.name)}
      ensures LegalRun(digest, {entry}, old(files), ops) && files == ApplyAll(old(files), ops)
    {
      hide *;
      ghost var from := files;
      var tmp := TempName(entry.name);
      ops := [];
      EmptyRun(digest, {entry}, from);
      if digest(written) != entry.fileHash {
        DropRun(digest, {entry}, from, ops, tmp);
        files, ops := files - {tmp}, ops + [Drop(tmp)];
        return false, ops;
      }
      var syncFails: bool := *;
      if faulty && syncFails { return false, ops; }
      if entry.name in files {
        var removeFails: bool := *;
        if faulty && removeFails { return false, ops; }
        DropRun(digest, {entry}, from, ops, entry.name);
        files, ops := files - {entry.name}, ops + [Drop(entry.name)];
      }
      if tmp !in files {
        return false, ops;
      }
      var renameFails: bool := *;
      if faulty && renameFails { return false, ops; }
      InstallRun(digest, entry, from, ops);
      files, ops := (files - {tmp})[entry.name := files[tmp]], ops + [Install(entry)];
      ok := true;
    }

    /** Assemble one file under its temporary name, verify it, put it in place. */
    method WriteNewFile(digest: Digest, entry: FileEntry, own: Option<ChunkMap>, shared: ChunkMap, temp: Temp,
        faulty: bool,
        ghost prev: seq<FileEntry>)
      returns (ok: bool, ghost ops: seq<Op>)
      requires shared == BuildMap(prev)
      requires own == if entry.name in FileIndex(prev) then Some(FileMap(FileIndex(prev)[entry.name])) else None
      modifies this
      ensures ok ==> MergeOne(digest, old(files), temp, prev, entry) == (files, true)
      ensures !ok && !faulty ==>
        MergeOne(digest, old(files), temp, prev, entry) == (files - {TempName(entry.name)}, false)
      ensures LegalRun(digest, {entry}, old(files), ops) && files == ApplyAll(old(files), ops)
    {
      hide Assemble;
      hide LegalRun;
      hide ApplyAll;
      hide TempName;
      hide BuildMap;
      hide FileMap;
      hide FileIndex;
      ghost var start := files;
      var assembled, first := AssembleNew(digest, entry, own, shared, temp, faulty, prev);
      if assembled.None? { return false, first; }
      ghost var rest;
      ok, rest := FinishNew(digest, entry, assembled.value, faulty, start);
      RunsChain(digest, {entry}, {entry}, start, first, rest);
      assert {entry} + {entry} == {entry};
      ops := first + rest;
    }

    /** The merge loop; a failed entry is recorded and its temporary file removed. */
    method MergeEntries(digest: Digest, next: seq<FileEntry>, prev: seq<FileEntry>, temp: Temp, faulty: bool)
      returns (merged: nat, failed: seq<Name>, ghost ops: seq<Op>)
      modifies this
      ensures !faulty || failed == [] ==>
        Upto(digest, old(files), temp, prev, next, |next|) == Progress(files, merged, failed)
      ensures LegalRun(digest, Elements(next), old(files), ops) && files == ApplyAll(old(files), ops)
    {
      hide *;
      ghost var start := files;
      var index, maps := BuildFileMaps(prev);
      var shared := BuildChunkMap(prev);
      merged, failed, ops := 0, [], [];
      EmptyRun(digest, Elements(next), start);
      ExactStart(digest, start, temp, prev, next, faulty);
      for i := 0 to |next|
        invariant Exact(digest, start, temp, prev, next, i, Progress(files, merged, failed), faulty)
        invariant LegalRun(digest, Elements(next), start, ops) && files == ApplyAll(start, ops)
      {
        var entry := next[i];
        ghost var before := Progress(files, merged, failed);
        ExactSteps(digest, start, temp, prev, next, i, before, faulty);
        if entry.name !in index || index[entry.name].fileHash != entry.fileHash || entry.name !in files {
          MapsAt(prev, entry.name);
          var own := if entry.name in maps then Some(maps[entry.name]) else None;
          var ok, done := WriteNewFile(digest, entry, own, shared, temp, faulty, prev);
          EntryRun(digest, next, i, start, ops, before.disk, done);
          ops := ops + done;
          if ok {
            merged := merged + 1;
          } else {
            DropRun(digest, Elements(next), start, ops, TempName(entry.name));
            files, ops := files - {TempName(entry.name)}, ops + [Drop(TempName(entry.name))];
            failed := failed + [entry.name];
          }
        }
      }
      ExactEnd(digest, start, temp, prev, next, Progress(files, merged, failed), faulty);
    }

    /** Delete the dropped names that are still there, in any order. */
    method DeleteDropped(digest: Digest, gone: set<Path>, faulty: bool, ghost entries: set<FileEntry>)
      returns (ok: bool, deleted: nat, ghost ops: seq<Op>)
      modifies this
      ensures ok || faulty
      ensures ok ==> files == old(files) - gone * old(files).Keys && deleted == |gone * old(files).Keys|
      ensures LegalRun(digest, entries, old(files), ops) && files == ApplyAll(old(files), ops)
    {
      hide *;
      ghost var start := files;
      var todo := gone;
      deleted, ops := 0, [];
      EmptyRun(digest, entries, start);
      DeletingStart(start, gone);
      while todo != {}
        invariant Deleting(start, gone, todo, files, deleted)
        invariant LegalRun(digest, entries, start, ops) && files == ApplyAll(start, ops)
        decreases todo
      {
        var path :| path in todo;
        DeletingStep(start, gone, todo, files, deleted, path);
        todo := todo - {path};
        if path in files {
          var removeFails: bool := *;
          if faulty && removeFails { return false, deleted, ops; }
          DropRun(digest, entries, start, ops, path);
          files, ops := files - {path}, ops + [Drop(path)];
          deleted := deleted + 1;
        }
      }
      DeletingEnd(start, gone, files, deleted);
      ok := true;
    }

    /**
     * Merge every due entry, then delete the dropped files. Failures are collected; only a failing delete stops the
     * run.
     */
    method Merge(digest: Digest, next: seq<FileEntry>, prev: seq<FileEntry>, temp: Temp, faulty: bool)
      returns (r: Option<Summary>, ghost ops: seq<Op>)
      modifies this
      ensures !faulty ==> r.Some?
      ensures r.Some? && (!faulty || r.value.failed == []) ==>
        r == Some(MergeFiles(digest, old(files), temp, prev, next).1) &&
        files == MergeFiles(digest, old(files), temp, prev, next).0
      ensures LegalRun(digest, Elements(next), old(files), ops) && files == ApplyAll(old(files), ops)
    {
      hide *;
      ghost var start := files;
      var merged, failed, first := MergeEntries(digest, next, prev, temp, faulty);
      var ok, deleted, rest := DeleteDropped(digest, Names(prev) - Names(next), faulty, Elements(next));
      RunsChain(digest, Elements(next), Elements(next), start, first, rest);
      assert Elements(next) + Elements(next) == Elements(next);
      ops := first + rest;
      MergeEnd(digest, start, temp, prev, next);
      r := if ok then Some(Summary(merged, deleted, failed)) else None;
    }
  }

  // ---------- the steps of the specification, one at a time ----------

  lemma AssembleNext(start: Disk, temp: Temp, prev: seq<FileEntry>, entry: FileEntry, written: Bytes, j: nat)
    requires j < |entry.chunks|
    ensures var p := Piece(start[TempName(entry.name) := written], temp, prev, entry.name, entry.chunks[j].hash);
            Assemble(start, temp, prev, entry.name, written, entry.chunks[j..])
            == if p.None? then None
               else Assemble(start, temp, prev, entry.name, written + p.value, entry.chunks[j + 1..])
  {
    hide Piece;
    hide TempName;
    assert entry.chunks[j..][0] == entry.chunks[j] && entry.chunks[j..][1..] == entry.chunks[j + 1..];
  }

  lemma AssembleDone(start: Disk, temp: Temp, prev: seq<FileEntry>, entry: FileEntry, written: Bytes)
    ensures Assemble(start, temp, prev, entry.name, written, entry.chunks[|entry.chunks|..]) == Some(written)
  {
  }

  /** After `i` entries the loop is where the specification is, unless a fault has made an entry fail. */
  ghost predicate Exact(digest: Digest, start: Disk, temp: Temp, prev: seq<FileEntry>, next: seq<FileEntry>, i: nat,
      m: Progress, faulty: bool)
    requires i <= |next|
  {
    !faulty || m.failed == [] ==> Upto(digest, start, temp, prev, next, i) == m
  }

  lemma ExactStart(digest: Digest, start: Disk, temp: Temp, prev: seq<FileEntry>, next: seq<FileEntry>, faulty: bool)
    ensures Exact(digest, start, temp, prev, next, 0, Progress(start, 0, []), faulty)
  {
  }

  lemma ExactEnd(digest: Digest, start: Disk, temp: Temp, prev: seq<FileEntry>, next: seq<FileEntry>, m: Progress,
      faulty: bool)
    requires Exact(digest, start, temp, prev, next, |next|, m, faulty)
    ensures !faulty || m.failed == [] ==> Upto(digest, start, temp, prev, next, |next|) == m
  {
  }

  /** The three ways an entry can go. */
  lemma ExactSteps(digest: Digest, start: Disk, temp: Temp, prev: seq<FileEntry>, next: seq<FileEntry>, i: nat,
      m: Progress, faulty: bool)
    requires i < |next| && Exact(digest, start, temp, prev, next, i, m, faulty)
    ensures var e := next[i];
            var need := e.name !in FileIndex(prev) || FileIndex(prev)[e.name].fileHash != e.fileHash ||
              e.name !in m.disk;
            (!need ==> Exact(digest, start, temp, prev, next, i + 1, m, faulty)) &&
            (need ==> forall d :: MergeOne(digest, m.disk, temp, prev, e) == (d, true) ==>
              Exact(digest, start, temp, prev, next, i + 1, Progress(d, m.merged + 1, m.failed), faulty)) &&
            (need ==> forall d :: faulty || MergeOne(digest, m.disk, temp, prev, e) == (d, false) ==>
              Exact(digest, start, temp, prev, next, i + 1, Progress(d, m.merged, m.failed + [e.name]), faulty))
  {
    hide MergeOne;
    hide FileIndex;
    UptoStep(digest, start, temp, prev, next, i);
    hide Upto;
  }

  lemma MapsAt(prev: seq<FileEntry>, name: Name)
    ensures name in FileMaps(prev) <==> name in FileIndex(prev)
    ensures name in FileMaps(prev) ==> FileMaps(prev)[name] == FileMap(FileIndex(prev)[name])
  {
    hide FileMap;
    hide FileIndex;
  }

  lemma TouchRun(digest: Digest, entry: FileEntry, d: Disk, ops: seq<Op>, content: Bytes)
    requires LegalRun(digest, {entry}, d, ops)
    ensures LegalRun(digest, {entry}, d, ops + [Touch(entry, content)])
    ensures ApplyAll(d, ops + [Touch(entry, content)]) == ApplyAll(d, ops)[TempName(entry.name) := content]
  {
    hide TempName;
    RunSnoc(digest, {entry}, d, ops, Touch(entry, content));
  }

  lemma DropRun(digest: Digest, entries: set<FileEntry>, d: Disk, ops: seq<Op>, path: Path)
    requires LegalRun(digest, entries, d, ops)
    ensures LegalRun(digest, entries, d, ops + [Drop(path)])
    ensures ApplyAll(d, ops + [Drop(path)]) == ApplyAll(d, ops) - {path}
  {
    RunSnoc(digest, entries, d, ops, Drop(path));
  }

  lemma InstallRun(digest: Digest, entry: FileEntry, d: Disk, ops: seq<Op>)
    requires LegalRun(digest, {entry}, d, ops) && TempName(entry.name) in ApplyAll(d, ops)
    requires digest(ApplyAll(d, ops)[TempName(entry.name)]) == entry.fileHash
    ensures LegalRun(digest, {entry}, d, ops + [Install(entry)])
    ensures var at := ApplyAll(d, ops);
            ApplyAll(d, ops + [Install(entry)]) == (at - {TempName(entry.name)})[entry.name := at[TempName(entry.name)]]
  {
    hide TempName;
    RunSnoc(digest, {entry}, d, ops, Install(entry));
  }

  lemma EntryRun(digest: Digest, next: seq<FileEntry>, i: nat, start: Disk, ops: seq<Op>, before: Disk, done: seq<Op>)
    requires i < |next| && LegalRun(digest, Elements(next), start, ops) && before == ApplyAll(start, ops)
    requires LegalRun(digest, {next[i]}, before, done)
    ensures LegalRun(digest, Elements(next), start, ops + done) && ApplyAll(start, ops + done) == ApplyAll(before, done)
  {
    RunsChain(digest, Elements(next), {next[i]}, start, ops, done);
    assert next[i] in next;
    assert Elements(next) + {next[i]} == Elements(next);
  }

  /** Half way through the deletes: the names outside `todo` are gone and counted. */
  ghost predicate Deleting(start: Disk, gone: set<Path>, todo: set<Path>, files: Disk, deleted: nat) {
    todo <= gone && files == start - (gone - todo) * start.Keys && deleted == |(gone - todo) * start.Keys|
  }

  lemma DeletingStart(start: Disk, gone: set<Path>)
    ensures Deleting(start, gone, gone, start, 0)
  {
    assert (gone - gone) * start.Keys == {};
  }

  lemma DeletingStep(start: Disk, gone: set<Path>, todo: set<Path>, files: Disk, deleted: nat, path: Path)
    requires Deleting(start, gone, todo, files, deleted) && path in todo
    ensures path !in files ==> Deleting(start, gone, todo - {path}, files, deleted)
    ensures path in files ==> Deleting(start, gone, todo - {path}, files - {path}, deleted + 1)
  {
    var removed := (gone - todo) * start.Keys;
    var grown := (gone - (todo - {path})) * start.Keys;
    assert path !in removed;
    if path in files {
      assert grown == removed + {path};
      MinusMinus(start, removed, path);
    } else {
      assert grown == removed;
    }
  }

  lemma DeletingEnd(start: Disk, gone: set<Path>, files: Disk, deleted: nat)
    requires Deleting(start, gone, {}, files, deleted)
    ensures files == start - gone * start.Keys && deleted == |gone * start.Keys|
  {
    assert gone - {} == gone;
  }

  lemma MinusMinus<K, V>(m: map<K, V>, a: set<K>, k: K)
    ensures (m - a) - {k} == m - (a + {k})
  {
    var l, r := (m - a) - {k}, m - (a + {k});
    assert l.Keys == r.Keys;
    forall x | x in l.Keys ensures l[x] == r[x] {
      assert x in (m - a);
    }
  }

  lemma EmptyRun(digest: Digest, entries: set<FileEntry>, d: Disk)
    ensures LegalRun(digest, entries, d, []) && ApplyAll(d, []) == d
  {
  }
}
