/** Rebuilding a version's files from the files on disk and the temporary blocks. */
module Merge {
  import opened Common
  import opened Manifest
  import opened ChunkMap
  import opened UpdatePlan

  type Path = Bytes
  type Disk = map<Path, Bytes>
  type Temp = map<Hash, Bytes>

  // ---------- the temporary name of a file ----------

  const SLASH: Byte := 0x2F
  const DOT: Byte := 0x2E
  const DOT_NEW: Bytes := [0x2E, 0x6E, 0x65, 0x77]

  /** The position of the last `b`, or -1. */
  function LastOf(s: Bytes, b: Byte): (i: int)
    ensures -1 <= i < |s|
    ensures i >= 0 ==> s[i] == b
    ensures forall j :: i < j < |s| ==> s[j] != b
  {
    if s == [] then -1
    else if s[|s| - 1] == b then |s| - 1
    else LastOf(s[..|s| - 1], b)
  }

  /** The path without its extension; a leading dot does not start one. */
  function Stem(path: Path): Path {
    var start := LastOf(path, SLASH) + 1;
    var dot := LastOf(path[start..], DOT);
    if dot <= 0 then path else path[..start + dot]
  }

  /** `with_extension("new")`. */
  function TempName(path: Path): Path {
    Stem(path) + DOT_NEW
  }

  ghost predicate EndsInNew(path: Path) {
    |path| >= 4 && path[|path| - 4..] == DOT_NEW
  }

  lemma TempNameEndsInNew(path: Path)
    ensures EndsInNew(TempName(path))
  {
  }

  /** A directory prefix: nothing, or a path that ends in a slash. */
  predicate IsDir(dir: Path) {
    dir == [] || dir[|dir| - 1] == SLASH
  }

  lemma LastOfJoined(dir: Path, base: Bytes)
    requires IsDir(dir) && SLASH !in base
    ensures LastOf(dir + base, SLASH) == |dir| - 1 && (dir + base)[|dir|..] == base
  {
    hide LastOf;
    forall i | |dir| <= i < |dir + base|
      ensures (dir + base)[i] != SLASH
    {
      assert (dir + base)[i] == base[i - |dir|];
    }
    if dir != [] { assert (dir + base)[|dir| - 1] == SLASH; }
  }

  /** `dir/stem.ext` becomes `dir/stem.new`, where `ext` is what follows the last dot. */
  lemma TempNameExtension(dir: Path, stem: Bytes, ext: Bytes)
    requires IsDir(dir) && stem != [] && SLASH !in stem + ext && DOT !in ext
    ensures TempName(dir + (stem + [DOT] + ext)) == dir + stem + DOT_NEW
  {
    hide *;
    var base := stem + [DOT] + ext;
    NoSlash(stem, ext);
    LastDotOf(stem, ext);
    LastOfJoined(dir, base);
    CutAtDot(dir + base);
    Front(dir, stem, [DOT] + ext);
    assert stem + ([DOT] + ext) == base;
  }

  lemma CutAtDot(path: Path)
    ensures var start := LastOf(path, SLASH) + 1;
            var dot := LastOf(path[start..], DOT);
            dot > 0 ==> TempName(path) == path[..start + dot] + DOT_NEW
  {
    hide LastOf;
  }

  lemma NoSlash(stem: Bytes, ext: Bytes)
    requires SLASH !in stem + ext
    ensures SLASH !in stem + [DOT] + ext
  {
    assert forall b :: b in stem + [DOT] + ext ==> b in stem + ext || b == DOT;
  }

  lemma LastDotOf(stem: Bytes, ext: Bytes)
    requires DOT !in ext
    ensures LastOf(stem + [DOT] + ext, DOT) == |stem|
  {
    hide LastOf;
    var base := stem + [DOT] + ext;
    var dot := LastOf(base, DOT);
    assert base[|stem|] == DOT;
    if dot > |stem| { assert base[dot] == ext[dot - |stem| - 1]; }
  }

  lemma Front(dir: Path, stem: Bytes, rest: Bytes)
    ensures (dir + (stem + rest))[..|dir| + |stem|] == dir + stem
  {
  }

  /** `dir/base` without a dot, or with a leading one only, becomes `dir/base.new`. */
  lemma TempNameNoExtension(dir: Path, base: Bytes)
    requires IsDir(dir) && SLASH !in base && forall j :: 0 < j < |base| ==> base[j] != DOT
    ensures TempName(dir + base) == dir + base + DOT_NEW
  {
    hide LastOf;
    LastOfJoined(dir, base);
  }

  // ---------- one block ----------

  /** A block for `entryName`: from its own old file, else from the first old file that has it, else temporary. */
  function Piece(d: Disk, temp: Temp, prev: seq<FileEntry>, entryName: Name, hash: Hash): Option<Bytes> {
    var index, shared := FileIndex(prev), BuildMap(prev);
    if entryName in index && entryName in d && hash in FileMap(index[entryName]) then
      var loc := FileMap(index[entryName])[hash];
      ReadAt(d[entryName], loc.offset, loc.len)
    else if hash in shared && shared[hash].name in d then
      ReadAt(d[shared[hash].name], shared[hash].offset, shared[hash].len)
    else if hash in temp then Some(temp[hash])
    else None
  }

  // ---------- one file ----------

  /** Append the blocks one by one to the temporary file, which already holds `written`. */
  function Assemble(d: Disk, temp: Temp, prev: seq<FileEntry>, entryName: Name, written: Bytes,
      chunks: seq<ChunkMeta>): Option<Bytes>
    decreases |chunks|
  {
    if chunks == [] then Some(written)
    else
      match Piece(d[TempName(entryName) := written], temp, prev, entryName, chunks[0].hash)
      case None => None
      case Some(data) => Assemble(d, temp, prev, entryName, written + data, chunks[1..])
  }

  /**
   * Assemble, verify, replace. A file whose temporary name is its own name is deleted as the file to replace, and
   * the rename finds nothing.
   */
  function MergeOne(digest: Digest, d: Disk, temp: Temp, prev: seq<FileEntry>, e: FileEntry): (Disk, bool) {
    var tmp := TempName(e.name);
    match Assemble(d, temp, prev, e.name, [], e.chunks)
    case None => (d - {tmp}, false)
    case Some(data) =>
      if digest(data) != e.fileHash || tmp == e.name then (d - {tmp}, false)
      else ((d - {tmp})[e.name := data], true)
  }

  // ---------- a whole version ----------

  predicate NeedMerge(d: Disk, prev: seq<FileEntry>, e: FileEntry) {
    e.name !in FileIndex(prev) || FileIndex(prev)[e.name].fileHash != e.fileHash || e.name !in d
  }

  datatype Progress = Progress(disk: Disk, merged: nat, failed: seq<Name>)

  function Step(digest: Digest, temp: Temp, prev: seq<FileEntry>, m: Progress, e: FileEntry): Progress {
    if !NeedMerge(m.disk, prev, e) then m
    else
      var (d, ok) := MergeOne(digest, m.disk, temp, prev, e);
      if ok then Progress(d, m.merged + 1, m.failed) else Progress(d, m.merged, m.failed + [e.name])
  }

  /** After the first `i` entries of the new version. */
  function Upto(digest: Digest, d: Disk, temp: Temp, prev: seq<FileEntry>, next: seq<FileEntry>, i: nat): Progress
    requires i <= |next|
  {
    if i == 0 then Progress(d, 0, [])
      else Step(digest, temp, prev, Upto(digest, d, temp, prev, next, i - 1), next[i - 1])
  }

  /** Files of the old version that the new one drops; they go last, so they can still serve blocks. */
  function Dropped(prev: seq<FileEntry>, next: seq<FileEntry>): set<Bytes> {
    Names(prev) - Names(next)
  }

  datatype Summary = Summary(merged: nat, deleted: nat, failed: seq<Name>)

  function MergeFiles(digest: Digest, d: Disk, temp: Temp, prev: seq<FileEntry>, next: seq<FileEntry>)
    : (Disk, Summary)
  {
    var m := Upto(digest, d, temp, prev, next, |next|);
    var gone := Dropped(prev, next) * m.disk.Keys;
    (m.disk - gone, Summary(m.merged, |gone|, m.failed))
  }

  // ---------- consequences of the temporary name ----------

  /** A file whose extension is `new` is its own temporary file. */
  lemma NewExtensionIsOwnTemp(stem: Path)
    requires stem != [] && stem[|stem| - 1] != SLASH
    ensures TempName(stem + DOT_NEW) == stem + DOT_NEW
  {
    hide LastOf;
    var path := stem + DOT_NEW;
    var slash := LastOf(path, SLASH);
    assert path[|stem| - 1] == stem[|stem| - 1];
    forall j | |stem| <= j < |path|
      ensures path[j] != SLASH
    {
      assert path[j] == DOT_NEW[j - |stem|];
    }
    assert slash < |stem| - 1;
    LastDot(stem[slash + 1..]);
    assert path[slash + 1..] == stem[slash + 1..] + DOT_NEW;
    assert path[..|stem|] == stem;
  }

  lemma LastDot(s: Bytes)
    ensures LastOf(s + DOT_NEW, DOT) == |s|
  {
    hide LastOf;
    assert (s + DOT_NEW)[|s|] == DOT;
    forall j | |s| < j < |s| + 4
      ensures (s + DOT_NEW)[j] != DOT
    {
      assert (s + DOT_NEW)[j] == DOT_NEW[j - |s|];
    }
  }

  /** Merging `a.bin` loses a file called `a.new`. */
  lemma TempNameClash(digest: Digest, d: Disk, temp: Temp, prev: seq<FileEntry>, e: FileEntry)
    requires e.name == [0x61, 0x2E, 0x62, 0x69, 0x6E]
    ensures [0x61, 0x2E, 0x6E, 0x65, 0x77] !in MergeOne(digest, d, temp, prev, e).0
  {
    var n := e.name;
    assert LastOf(n[..0], SLASH) == -1;
    assert LastOf(n, SLASH) == -1;
    assert n[0..] == n;
    assert n[1] == DOT;
    assert LastOf(n, DOT) == 1;
    assert TempName(n) == [0x61, 0x2E, 0x6E, 0x65, 0x77];
  }

  lemma UptoStart(digest: Digest, d: Disk, temp: Temp, prev: seq<FileEntry>, next: seq<FileEntry>)
    ensures Upto(digest, d, temp, prev, next, 0) == Progress(d, 0, [])
  {
  }

  lemma UptoStep(digest: Digest, d: Disk, temp: Temp, prev: seq<FileEntry>, next: seq<FileEntry>, i: nat)
    requires i < |next|
    ensures Upto(digest, d, temp, prev, next, i + 1)
         == Step(digest, temp, prev, Upto(digest, d, temp, prev, next, i), next[i])
  {
    hide Step;
  }

  lemma MergeEnd(digest: Digest, d: Disk, temp: Temp, prev: seq<FileEntry>, next: seq<FileEntry>)
    ensures var m := Upto(digest, d, temp, prev, next, |next|);
            var gone := (Names(prev) - Names(next)) * m.disk.Keys;
            MergeFiles(digest, d, temp, prev, next) == (m.disk - gone, Summary(m.merged, |gone|, m.failed))
  {
    hide Upto;
  }

  /** Failures once noted stay noted. */
  lemma {:induction false} FailedStay(digest: Digest, d: Disk, temp: Temp, prev: seq<FileEntry>, next: seq<FileEntry>,
      i: nat, k: nat)
    requires i <= k <= |next|
    ensures Upto(digest, d, temp, prev, next, i).failed <= Upto(digest, d, temp, prev, next, k).failed
  {
    hide MergeOne;
    hide NeedMerge;
    if i < k {
      FailedStay(digest, d, temp, prev, next, i, k - 1);
    }
  }

  lemma LastStays<T>(a: seq<T>, b: seq<T>, x: T)
    requires a + [x] <= b
    ensures x in b
  {
    assert b[|a|] == x;
  }
}
