/** The map from block hash to its first place in a version's files, and the contents those files have. */
module ChunkMap {
  import opened Common
  import opened Manifest

  datatype Loc = Loc(name: Name, offset: nat, len: nat)
  type ChunkMap = map<Hash, Loc>

  /** `entry(..).or_insert(..)` for every block of one file, with a running offset. */
  function AddFile(m: ChunkMap, name: Name, offset: nat, chunks: seq<ChunkMeta>): ChunkMap
    decreases |chunks|
  {
    if chunks == [] then m
    else
      var c := chunks[0];
      AddFile(if c.hash in m then m else m[c.hash := Loc(name, offset, c.len)], name, offset + c.len, chunks[1..])
  }

  function AddFiles(m: ChunkMap, files: seq<FileEntry>): ChunkMap
    decreases |files|
  {
    if files == [] then m else AddFiles(AddFile(m, files[0].name, 0, files[0].chunks), files[1..])
  }

  /** The map over all files of a version. */
  function BuildMap(files: seq<FileEntry>): ChunkMap {
    AddFiles(map[], files)
  }

  /** The map over one file alone. */
  function FileMap(f: FileEntry): ChunkMap {
    AddFile(map[], f.name, 0, f.chunks)
  }

  method BuildFileMap(m: ChunkMap, f: FileEntry) returns (r: ChunkMap)
    ensures r == AddFile(m, f.name, 0, f.chunks)
  {
    r := m;
    var offset: nat := 0;
    for i := 0 to |f.chunks|
      invariant AddFile(m, f.name, 0, f.chunks) == AddFile(r, f.name, offset, f.chunks[i..])
    {
      var c := f.chunks[i];
      assert f.chunks[i..][1..] == f.chunks[i + 1..];
      if c.hash !in r {
        r := r[c.hash := Loc(f.name, offset, c.len)];
      }
      offset := offset + c.len;
    }
  }

  method BuildChunkMap(files: seq<FileEntry>) returns (r: ChunkMap)
    ensures r == BuildMap(files)
  {
    r := map[];
    for i := 0 to |files|
      invariant BuildMap(files) == AddFiles(r, files[i..])
    {
      assert files[i..][1..] == files[i + 1..];
      r := BuildFileMap(r, files[i]);
    }
  }

  // ---------- block sets ----------

  ghost predicate HasChunk(f: FileEntry, hash: Hash) {
    exists i :: 0 <= i < |f.chunks| && f.chunks[i].hash == hash
  }

  ghost predicate InVersion(files: seq<FileEntry>, hash: Hash) {
    exists f :: f in files && HasChunk(f, hash)
  }

  function HashSet(chunks: seq<ChunkMeta>): set<Hash> {
    set c | c in chunks :: c.hash
  }

  lemma HashSetHead(chunks: seq<ChunkMeta>)
    ensures chunks == [] ==> HashSet(chunks) == {}
    ensures chunks != [] ==> HashSet(chunks) == {chunks[0].hash} + HashSet(chunks[1..])
  {
    if chunks != [] {
      assert chunks == [chunks[0]] + chunks[1..];
    }
  }

  lemma {:induction false} AddFileKeys(m: ChunkMap, name: Name, offset: nat, chunks: seq<ChunkMeta>)
    ensures AddFile(m, name, offset, chunks).Keys == m.Keys + HashSet(chunks)
    ensures forall h :: h in m ==> AddFile(m, name, offset, chunks)[h] == m[h]
    decreases |chunks|
  {
    hide HashSet;
    HashSetHead(chunks);
    if chunks != [] {
      var c := chunks[0];
      AddFileKeys(if c.hash in m then m else m[c.hash := Loc(name, offset, c.len)], name, offset + c.len, chunks[1..]);
    }
  }

  lemma FileMapKeys(f: FileEntry, hash: Hash)
    ensures hash in FileMap(f) <==> HasChunk(f, hash)
  {
    AddFileKeys(map[], f.name, 0, f.chunks);
    if hash in FileMap(f) {
      var c :| c in f.chunks && c.hash == hash;
      var i :| 0 <= i < |f.chunks| && f.chunks[i] == c;
    }
  }

  lemma {:induction false} AddFilesKeys(m: ChunkMap, files: seq<FileEntry>, hash: Hash)
    ensures hash in AddFiles(m, files) <==> hash in m || InVersion(files, hash)
    ensures hash in m ==> AddFiles(m, files)[hash] == m[hash]
    decreases |files|
  {
    if files != [] {
      var f := files[0];
      var m' := AddFile(m, f.name, 0, f.chunks);
      AddFileKeys(m, f.name, 0, f.chunks);
      FileMapKeys(f, hash);
      AddFileKeys(map[], f.name, 0, f.chunks);
      AddFilesKeys(m', files[1..], hash);
      assert files == [f] + files[1..];
    }
  }

  /** The map knows exactly the blocks of the version. */
  lemma BuildMapKeys(files: seq<FileEntry>, hash: Hash)
    ensures hash in BuildMap(files) <==> InVersion(files, hash)
  {
    AddFilesKeys(map[], files, hash);
  }

  // ---------- contents ----------

  /** The authentic bytes of every block in play. */
  type Library = map<Hash, Bytes>

  ghost predicate ChunksKnown(lib: Library, chunks: seq<ChunkMeta>) {
    forall i :: 0 <= i < |chunks| ==> chunks[i].hash in lib && |lib[chunks[i].hash]| == chunks[i].len
  }

  /** The bytes of a file made of these blocks. */
  ghost function Content(lib: Library, chunks: seq<ChunkMeta>): Bytes
    requires ChunksKnown(lib, chunks)
  {
    if chunks == [] then [] else lib[chunks[0].hash] + Content(lib, chunks[1..])
  }

  ghost predicate UniqueNames(files: seq<FileEntry>) {
    forall i, j :: 0 <= i < j < |files| ==> files[i].name != files[j].name
  }

  /** The version was cut from real files: unique names, known blocks, true file hashes. */
  ghost predicate Realized(digest: Digest, lib: Library, files: seq<FileEntry>) {
    UniqueNames(files) &&
    forall i :: 0 <= i < |files| ==>
      ChunksKnown(lib, files[i].chunks) && files[i].fileHash == digest(Content(lib, files[i].chunks))
  }

  /** `loc` points at the bytes of `hash` inside the file it names. */
  ghost predicate PointsAt(lib: Library, f: FileEntry, hash: Hash, loc: Loc) {
    hash in lib && ChunksKnown(lib, f.chunks) && loc.name == f.name && loc.len == |lib[hash]| &&
    loc.offset + loc.len <= |Content(lib, f.chunks)| &&
    Content(lib, f.chunks)[loc.offset..loc.offset + loc.len] == lib[hash]
  }

  lemma {:induction false} ContentAppend(lib: Library, a: seq<ChunkMeta>, b: seq<ChunkMeta>)
    requires ChunksKnown(lib, a) && ChunksKnown(lib, b)
    ensures ChunksKnown(lib, a + b)
    ensures Content(lib, a + b) == Content(lib, a) + Content(lib, b)
  {
    if a == [] {
      assert a + b == b;
    } else {
      ContentAppend(lib, a[1..], b);
      assert (a + b)[1..] == a[1..] + b;
    }
  }

  /** The place after the first `k` blocks holds block `k`. */
  lemma PointHere(lib: Library, f: FileEntry, k: nat)
    requires ChunksKnown(lib, f.chunks) && k < |f.chunks|
    ensures ChunksKnown(lib, f.chunks[..k]) && ChunksKnown(lib, f.chunks[..k + 1])
    ensures PointsAt(lib, f, f.chunks[k].hash, Loc(f.name, |Content(lib, f.chunks[..k])|, f.chunks[k].len))
    ensures |Content(lib, f.chunks[..k + 1])| == |Content(lib, f.chunks[..k])| + f.chunks[k].len
  {
    var before, c, after := f.chunks[..k], f.chunks[k], f.chunks[k + 1..];
    assert f.chunks[..k + 1] == before + [c];
    assert f.chunks == before + [c] + after;
    ContentAppend(lib, before, [c]);
    ContentAppend(lib, before + [c], after);
    assert Content(lib, [c]) == lib[c.hash] + Content(lib, [c][1..]);
  }

  /** Running offsets are the prefix sums of the block lengths: each new entry points at its block. */
  lemma {:induction false} AddFilePoints(lib: Library, f: FileEntry, m: ChunkMap, k: nat, hash: Hash)
    requires ChunksKnown(lib, f.chunks) && k <= |f.chunks|
    requires hash !in m && hash in AddFile(m, f.name, |Content(lib, f.chunks[..k])|, f.chunks[k..])
    ensures PointsAt(lib, f, hash, AddFile(m, f.name, |Content(lib, f.chunks[..k])|, f.chunks[k..])[hash])
    decreases |f.chunks| - k
  {
    hide PointsAt;
    hide Content;
    PointHere(lib, f, k);
    var c, offset := f.chunks[k], |Content(lib, f.chunks[..k])|;
    assert f.chunks[k..][1..] == f.chunks[k + 1..];
    var m' := if c.hash in m then m else m[c.hash := Loc(f.name, offset, c.len)];
    if hash in m' {
      AddFileKeys(m', f.name, offset + c.len, f.chunks[k + 1..]);
    } else {
      AddFilePoints(lib, f, m', k + 1, hash);
    }
  }

  lemma FileMapPoints(lib: Library, f: FileEntry, hash: Hash)
    requires ChunksKnown(lib, f.chunks) && hash in FileMap(f)
    ensures PointsAt(lib, f, hash, FileMap(f)[hash])
  {
    assert f.chunks[..0] == [] && f.chunks[0..] == f.chunks;
    AddFilePoints(lib, f, map[], 0, hash);
  }

  lemma {:induction false} AddFilesPoints(lib: Library, m: ChunkMap, files: seq<FileEntry>, hash: Hash)
    returns (f: FileEntry)
    requires forall i :: 0 <= i < |files| ==> ChunksKnown(lib, files[i].chunks)
    requires hash !in m && hash in AddFiles(m, files)
    ensures f in files && PointsAt(lib, f, hash, AddFiles(m, files)[hash])
    decreases |files|
  {
    f := files[0];
    var m' := AddFile(m, f.name, 0, f.chunks);
    assert f.chunks[..0] == [] && f.chunks[0..] == f.chunks;
    if hash in m' {
      AddFilePoints(lib, f, m, 0, hash);
      AddFilesKeys(m', files[1..], hash);
    } else {
      f := AddFilesPoints(lib, m', files[1..], hash);
    }
  }

  /** Every entry of a version's map points at its block inside one of the version's files. */
  lemma BuildMapPoints(lib: Library, files: seq<FileEntry>, hash: Hash) returns (f: FileEntry)
    requires forall i :: 0 <= i < |files| ==> ChunksKnown(lib, files[i].chunks)
    requires hash in BuildMap(files)
    ensures f in files && PointsAt(lib, f, hash, BuildMap(files)[hash])
  {
    f := AddFilesPoints(lib, map[], files, hash);
  }

  // ---------- the first place of a block ----------

  function TotalLen(chunks: seq<ChunkMeta>): nat
    decreases |chunks|
  {
    if chunks == [] then 0 else var last := |chunks| - 1; TotalLen(chunks[..last]) + chunks[last].len
  }

  lemma {:induction false} TotalLenAppend(a: seq<ChunkMeta>, b: seq<ChunkMeta>)
    ensures TotalLen(a + b) == TotalLen(a) + TotalLen(b)
    decreases |b|
  {
    if b == [] {
      assert a + b == a;
    } else {
      var last := |b| - 1;
      TotalLenAppend(a, b[..last]);
      assert (a + b)[..|a| + last] == a + b[..last] && (a + b)[|a| + last] == b[last];
    }
  }

  /** The length of a file is the sum of its block lengths. */
  lemma {:induction false} ContentLength(lib: Library, chunks: seq<ChunkMeta>)
    requires ChunksKnown(lib, chunks)
    ensures |Content(lib, chunks)| == TotalLen(chunks)
  {
    if chunks != [] {
      ContentLength(lib, chunks[1..]);
      assert chunks == [chunks[0]] + chunks[1..];
      TotalLenAppend([chunks[0]], chunks[1..]);
      assert TotalLen([chunks[0]]) == TotalLen([chunks[0]][..0]) + chunks[0].len;
    }
  }

  /** Block `k` is the first of its hash, and `loc` its place. */
  ghost predicate FirstAt(name: Name, chunks: seq<ChunkMeta>, k: nat, hash: Hash, loc: Loc) {
    k < |chunks| && chunks[k].hash == hash && (forall j :: 0 <= j < k ==> chunks[j].hash != hash) &&
    loc == Loc(name, TotalLen(chunks[..k]), chunks[k].len)
  }

  lemma {:induction false} AddFileFirst(m: ChunkMap, name: Name, done: seq<ChunkMeta>, chunks: seq<ChunkMeta>,
      hash: Hash) returns (k: nat)
    requires hash !in m && (forall c :: c in done ==> c.hash != hash)
    requires hash in AddFile(m, name, TotalLen(done), chunks)
    ensures FirstAt(name, done + chunks, k, hash, AddFile(m, name, TotalLen(done), chunks)[hash])
    decreases |chunks|
  {
    var c, offset := chunks[0], TotalLen(done);
    var m' := if c.hash in m then m else m[c.hash := Loc(name, offset, c.len)];
    TotalLenNext(done, c);
    assert done + [c] + chunks[1..] == done + chunks;
    hide TotalLen;
    hide FirstAt;
    if c.hash == hash {
      k := |done|;
      AddFileKeys(m', name, offset + c.len, chunks[1..]);
      FirstHere(name, done, chunks);
    } else {
      k := AddFileFirst(m', name, done + [c], chunks[1..], hash);
    }
  }

  lemma TotalLenNext(done: seq<ChunkMeta>, c: ChunkMeta)
    ensures TotalLen(done + [c]) == TotalLen(done) + c.len
  {
    assert (done + [c])[..|done|] == done;
  }

  lemma FirstHere(name: Name, done: seq<ChunkMeta>, chunks: seq<ChunkMeta>)
    requires chunks != [] && forall c :: c in done ==> c.hash != chunks[0].hash
    ensures var c := chunks[0];
            FirstAt(name, done + chunks, |done|, c.hash, Loc(name, TotalLen(done), c.len))
  {
    hide TotalLen;
    assert (done + chunks)[..|done|] == done && (done + chunks)[|done|] == chunks[0];
    forall j | 0 <= j < |done|
      ensures (done + chunks)[j].hash != chunks[0].hash
    {
      assert done[j] in done;
    }
  }

  lemma {:induction false} AddFilesFirst(m: ChunkMap, files: seq<FileEntry>, hash: Hash) returns (i: nat, k: nat)
    requires hash !in m && hash in AddFiles(m, files)
    ensures i < |files| && FirstAt(files[i].name, files[i].chunks, k, hash, AddFiles(m, files)[hash])
    ensures forall j :: 0 <= j < i ==> !HasChunk(files[j], hash)
    decreases |files|
  {
    hide FirstAt;
    hide HasChunk;
    var f := files[0];
    var m' := AddFile(m, f.name, 0, f.chunks);
    AddFileKeys(m, f.name, 0, f.chunks);
    AddFileKeys(map[], f.name, 0, f.chunks);
    FileMapKeys(f, hash);
    if hash in m' {
      i := 0;
      k := AddFileFirst(m, f.name, [], f.chunks, hash);
      assert [] + f.chunks == f.chunks;
      AddFilesKeys(m', files[1..], hash);
    } else {
      i, k := AddFilesFirst(m', files[1..], hash);
      i := i + 1;
      forall j | 0 <= j < i
        ensures !HasChunk(files[j], hash)
      {
        if j > 0 { assert files[j] == files[1..][j - 1]; }
      }
    }
  }

  /** A block's place is in the first file that has it, at the first block of that hash. */
  lemma BuildMapFirst(files: seq<FileEntry>, hash: Hash) returns (i: nat, k: nat)
    requires hash in BuildMap(files)
    ensures i < |files| && k < |files[i].chunks| && files[i].chunks[k].hash == hash
    ensures forall j :: 0 <= j < k ==> files[i].chunks[j].hash != hash
    ensures forall j :: 0 <= j < i ==> !HasChunk(files[j], hash)
    ensures BuildMap(files)[hash] == Loc(files[i].name, TotalLen(files[i].chunks[..k]), files[i].chunks[k].len)
  {
    i, k := AddFilesFirst(map[], files, hash);
  }
}
