/** When a merge succeeds, and what the disk holds afterwards. */
module MergeTheorems {
  import opened Common
  import opened Manifest
  import opened ChunkMap
  import opened UpdatePlan
  import opened Merge

  /** An update about to merge: authentic block bytes, disk, temporary blocks, old and new version. */
  datatype Update = Update(lib: Library, disk: Disk, temp: Temp, prev: seq<FileEntry>, next: seq<FileEntry>)

  // ---------- the setting ----------

  ghost predicate TempAuthentic(lib: Library, temp: Temp) {
    forall h :: h in temp && h in lib ==> temp[h] == lib[h]
  }

  ghost predicate AllKnown(lib: Library, files: seq<FileEntry>) {
    forall i :: 0 <= i < |files| ==> ChunksKnown(lib, files[i].chunks)
  }

  /** The file `name` has exactly the bytes an entry of that name in `files` stands for. */
  ghost predicate Holds(lib: Library, d: Disk, files: seq<FileEntry>, name: Name) {
    name in d && name in FileIndex(files) && ChunksKnown(lib, FileIndex(files)[name].chunks) &&
    d[name] == Content(lib, FileIndex(files)[name].chunks)
  }

  /** The start file has the old version's bytes, or already the new version's. */
  ghost predicate HoldsOld(u: Update, name: Name) {
    Holds(u.lib, u.disk, u.prev, name)
  }

  ghost predicate HoldsNew(u: Update, name: Name) {
    Holds(u.lib, u.disk, u.next, name)
  }

  /**
   * Every old file still on disk has its old or already its new content: the disk of a first attempt, and the disk
   * after any number of failed or interrupted ones at the same version.
   */
  ghost predicate OldOrNew(u: Update) {
    forall i :: 0 <= i < |u.prev| && u.prev[i].name in u.disk ==>
      HoldsOld(u, u.prev[i].name) || HoldsNew(u, u.prev[i].name)
  }

  /** No file of either version bears the temporary name of a file to merge. */
  ghost predicate NoTempClash(prev: seq<FileEntry>, next: seq<FileEntry>) {
    forall j :: 0 <= j < |next| ==> TempName(next[j].name) !in Names(prev) + Names(next)
  }

  /** Entries of the same name with the same file hash have the same bytes. */
  ghost predicate HashesDecide(lib: Library, prev: seq<FileEntry>, next: seq<FileEntry>)
    requires AllKnown(lib, prev) && AllKnown(lib, next)
  {
    forall i, j :: 0 <= i < |prev| && 0 <= j < |next| &&
                   prev[i].name == next[j].name && prev[i].fileHash == next[j].fileHash ==>
      Content(lib, prev[i].chunks) == Content(lib, next[j].chunks)
  }

  /** Both versions were cut from real files and names do not clash; the files on disk may hold anything. */
  ghost predicate Setting(digest: Digest, u: Update) {
    Realized(digest, u.lib, u.prev) && Realized(digest, u.lib, u.next) && TempAuthentic(u.lib, u.temp) &&
    NoTempClash(u.prev, u.next)
  }

  /** In such a setting the old files on disk have old or new content. */
  ghost predicate Clean(digest: Digest, u: Update) {
    Setting(digest, u) && OldOrNew(u) && HashesDecide(u.lib, u.prev, u.next)
  }

  /** Managed names without the extension `new` never clash with a temporary name. */
  lemma NoNewExtensionNoClash(prev: seq<FileEntry>, next: seq<FileEntry>)
    requires forall n :: n in Names(prev) + Names(next) ==> !EndsInNew(n)
    ensures NoTempClash(prev, next)
  {
    forall j | 0 <= j < |next|
      ensures TempName(next[j].name) !in Names(prev) + Names(next)
    {
      TempNameEndsInNew(next[j].name);
    }
  }

  // ---------- which source a block comes from ----------

  ghost predicate Due(u: Update, j: nat)
    requires j < |u.next|
  {
    NeedMerge(u.disk, u.prev, u.next[j])
  }

  /** The file `name` is replaced by one of the first `i` entries. */
  ghost predicate Rewritten(u: Update, i: nat, name: Name)
    requires i <= |u.next|
  {
    exists j :: 0 <= j < i && u.next[j].name == name && Due(u, j)
  }

  /** The entry's own old file is there and has the block. */
  ghost predicate OwnSource(u: Update, e: FileEntry, hash: Hash) {
    e.name in FileIndex(u.prev) && e.name in u.disk && hash in FileMap(FileIndex(u.prev)[e.name])
  }

  /** The new bytes of a replaced file still show the block at its old place. */
  ghost predicate KeepsBlock(u: Update, loc: Loc, hash: Hash) {
    hash in u.lib && loc.name in FileIndex(u.next) && ChunksKnown(u.lib, FileIndex(u.next)[loc.name].chunks) &&
    ReadAt(Content(u.lib, FileIndex(u.next)[loc.name].chunks), loc.offset, loc.len) == Some(u.lib[hash])
  }

  /** The start file shows the block at its old place, whatever else it holds. */
  ghost predicate StartShows(u: Update, loc: Loc, hash: Hash) {
    hash in u.lib && loc.name in u.disk && ReadAt(u.disk[loc.name], loc.offset, loc.len) == Some(u.lib[hash])
  }

  /**
   * Entry `i` will find the right bytes for `hash`, judged from the two versions, the files present and the temporary
   * blocks before the merge starts.
   */
  ghost predicate SourceOk(u: Update, i: nat, hash: Hash)
    requires i < |u.next|
  {
    if OwnSource(u, u.next[i], hash) then OwnOk(u, u.next[i], hash)
    else if hash in BuildMap(u.prev) then SharedOk(u, i, BuildMap(u.prev)[hash], hash)
    else hash in u.temp
  }

  ghost predicate OwnOk(u: Update, e: FileEntry, hash: Hash)
    requires OwnSource(u, e, hash)
  {
    StartShows(u, FileMap(FileIndex(u.prev)[e.name])[hash], hash)
  }

  ghost predicate SharedOk(u: Update, i: nat, loc: Loc, hash: Hash)
    requires i < |u.next|
  {
    if Rewritten(u, i, loc.name) then KeepsBlock(u, loc, hash)
    else if loc.name in u.disk then StartShows(u, loc, hash)
    else hash in u.temp
  }

  ghost predicate EntryOk(u: Update, i: nat)
    requires i < |u.next|
  {
    forall k :: 0 <= k < |u.next[i].chunks| ==> SourceOk(u, i, u.next[i].chunks[k].hash)
  }

  /** Every entry that is due among the first `i` finds all of its blocks. */
  ghost predicate SourcesOk(u: Update, i: nat)
    requires i <= |u.next|
  {
    forall k :: 0 <= k < i && Due(u, k) ==> EntryOk(u, k)
  }

  // ---------- the disk half way through ----------

  predicate SameAt(a: Disk, b: Disk, n: Path) {
    (n in a <==> n in b) && (n in a ==> a[n] == b[n])
  }

  /** Disk `d` is the start disk with exactly the files due among the first `i` entries replaced. */
  ghost predicate Ideal(u: Update, i: nat, d: Disk)
    requires i <= |u.next| && AllKnown(u.lib, u.next)
  {
    (forall j :: 0 <= j < i && Due(u, j) ==>
      u.next[j].name in d && d[u.next[j].name] == Content(u.lib, u.next[j].chunks)) &&
    (forall n: Name :: n in Names(u.prev) + Names(u.next) && !Rewritten(u, i, n) ==> SameAt(d, u.disk, n))
  }

  lemma ReadPoints(lib: Library, f: FileEntry, hash: Hash, loc: Loc)
    requires PointsAt(lib, f, hash, loc)
    ensures ReadAt(Content(lib, f.chunks), loc.offset, loc.len) == Some(lib[hash])
  {
  }

  lemma ReadLength(file: Bytes, offset: nat, len: nat)
    ensures ReadAt(file, offset, len).Some? ==> |ReadAt(file, offset, len).value| == len
  {
  }

  lemma EntryOfName(files: seq<FileEntry>, f: FileEntry)
    requires UniqueNames(files) && f in files
    ensures exists k :: 0 <= k < |files| && files[k] == f
    ensures f.name in Names(files) && f.name in FileIndex(files) && FileIndex(files)[f.name] == f
  {
    var k :| 0 <= k < |files| && files[k] == f;
    IndexUnique(files, k);
  }

  lemma NotYetRewritten(u: Update, i: nat)
    requires UniqueNames(u.next) && i < |u.next|
    ensures !Rewritten(u, i, u.next[i].name) && u.next[i].name in Names(u.next)
  {
    assert u.next[i] in u.next;
  }

  // The block an entry gets, source by source.

  /**
   * Where the files have old or new content, a block is shown by a file that is still old or whose new content keeps
   * it.
   */
  lemma StartShowsIff(digest: Digest, u: Update, f: FileEntry, loc: Loc, hash: Hash)
    requires Clean(digest, u) && f in u.prev && PointsAt(u.lib, f, hash, loc)
    ensures StartShows(u, loc, hash) <==> f.name in u.disk && (HoldsOld(u, f.name) || KeepsBlock(u, loc, hash))
  {
    hide FileIndex;
    hide Content;
    hide ReadAt;
    EntryOfName(u.prev, f);
    ReadPoints(u.lib, f, hash, loc);
    var k :| 0 <= k < |u.prev| && u.prev[k] == f;
    assert f.name in u.disk ==> HoldsOld(u, f.name) || HoldsNew(u, f.name);
  }

  lemma OwnPiece(digest: Digest, u: Update, i: nat, d: Disk, written: Bytes, hash: Hash)
    requires Setting(digest, u) && i < |u.next| && Ideal(u, i, d) && OwnSource(u, u.next[i], hash)
    ensures hash in u.lib
    ensures var p := Piece(d[TempName(u.next[i].name) := written], u.temp, u.prev, u.next[i].name, hash);
            (p == Some(u.lib[hash]) <==> OwnOk(u, u.next[i], hash)) && (p.Some? ==> |p.value| == |u.lib[hash]|)
  {
    hide FileMap;
    hide FileIndex;
    hide Due;
    hide TempName;
    hide BuildMap;
    hide ReadAt;
    NotYetRewritten(u, i);
    var name := u.next[i].name;
    IndexKeys(u.prev, name);
    var f := FileIndex(u.prev)[name];
    EntryOfName(u.prev, f);
    FileMapPoints(u.lib, f, hash);
    var loc := FileMap(f)[hash];
    ReadLength(u.disk[name], loc.offset, loc.len);
    assert SameAt(d, u.disk, name);
  }

  /** What a file other than the entry's own shows at a shared place. */
  lemma SharedRead(digest: Digest, u: Update, i: nat, d: Disk, loc: Loc, hash: Hash)
    requires Setting(digest, u) && i < |u.next| && Ideal(u, i, d)
    requires hash in BuildMap(u.prev) && loc == BuildMap(u.prev)[hash] && hash in u.lib
    ensures loc.len == |u.lib[hash]| && loc.name in Names(u.prev)
    ensures loc.name in d <==> Rewritten(u, i, loc.name) || loc.name in u.disk
    ensures loc.name in d ==>
      (ReadAt(d[loc.name], loc.offset, loc.len) == Some(u.lib[hash])
       <==> if Rewritten(u, i, loc.name) then KeepsBlock(u, loc, hash) else StartShows(u, loc, hash))
  {
    hide FileIndex;
    hide Due;
    hide BuildMap;
    hide ReadAt;
    hide PointsAt;
    var f := BuildMapPoints(u.lib, u.prev, hash);
    assert loc.len == |u.lib[hash]| && f.name == loc.name by { PointsFacts(u.lib, f, hash, loc); }
    EntryOfName(u.prev, f);
    if Rewritten(u, i, loc.name) {
      var j :| 0 <= j < i && u.next[j].name == loc.name && Due(u, j);
      EntryOfName(u.next, u.next[j]);
    } else {
      assert SameAt(d, u.disk, loc.name);
    }
  }

  lemma PointsFacts(lib: Library, f: FileEntry, hash: Hash, loc: Loc)
    requires PointsAt(lib, f, hash, loc)
    ensures hash in lib && loc.len == |lib[hash]| && loc.name == f.name
  {
  }

  lemma PieceIdeal(digest: Digest, u: Update, i: nat, d: Disk, written: Bytes, hash: Hash)
    requires Setting(digest, u) && i < |u.next| && Ideal(u, i, d) && hash in u.lib
    ensures var p := Piece(d[TempName(u.next[i].name) := written], u.temp, u.prev, u.next[i].name, hash);
            (p == Some(u.lib[hash]) <==> SourceOk(u, i, hash)) && (p.Some? ==> |p.value| == |u.lib[hash]|)
  {
    hide FileIndex;
    hide FileMap;
    hide BuildMap;
    hide Rewritten;
    hide KeepsBlock;
    hide TempName;
    hide ChunksKnown;
    hide OwnOk;
    hide StartShows;
    hide ReadAt;
    var e := u.next[i];
    NotYetRewritten(u, i);
    if OwnSource(u, e, hash) {
      OwnPiece(digest, u, i, d, written, hash);
    } else {
      assert SameAt(d, u.disk, e.name);
      if hash in BuildMap(u.prev) {
        var loc := BuildMap(u.prev)[hash];
        SharedRead(digest, u, i, d, loc, hash);
        if loc.name in d { ReadLength(d[loc.name], loc.offset, loc.len); }
      }
    }
  }

  // ---------- assembling one file ----------

  /**
   * On an ideal disk the assembled bytes are `written` and the entry's content from block `k` on exactly when all of
   * those blocks have a good source.
   */
  lemma {:induction false} AssembleIdeal(digest: Digest, u: Update, i: nat, d: Disk, written: Bytes, k: nat)
    requires Setting(digest, u) && i < |u.next| && Ideal(u, i, d) && k <= |u.next[i].chunks|
    ensures var e := u.next[i];
            ChunksKnown(u.lib, e.chunks[k..]) &&
            var r := Assemble(d, u.temp, u.prev, e.name, written, e.chunks[k..]);
            var whole := written + Content(u.lib, e.chunks[k..]);
            (r == Some(whole) <==> forall l :: k <= l < |e.chunks| ==> SourceOk(u, i, e.chunks[l].hash)) &&
            (r.Some? ==> |r.value| == |whole| && r.value[..|written|] == written)
    decreases |u.next[i].chunks| - k
  {
    hide Piece;
    hide SourceOk;
    hide Ideal;
    hide TempName;
    var e := u.next[i];
    var rest := e.chunks[k..];
    assert ChunksKnown(u.lib, rest);
    if k == |e.chunks| {
      assert rest == [] && written + Content(u.lib, rest) == written;
    } else {
      var hash := e.chunks[k].hash;
      assert rest[1..] == e.chunks[k + 1..];
      var p := Piece(d[TempName(e.name) := written], u.temp, u.prev, e.name, hash);
      PieceIdeal(digest, u, i, d, written, hash);
      if p.Some? {
        AssembleIdeal(digest, u, i, d, written + p.value, k + 1);
        var r := Assemble(d, u.temp, u.prev, e.name, written, rest);
        PrefixDecides(written, p.value, u.lib[hash], r, Content(u.lib, e.chunks[k + 1..]));
      }
    }
  }

  /** A wrong piece of the right length spoils the whole result. */
  lemma PrefixDecides(written: Bytes, got: Bytes, want: Bytes, r: Option<Bytes>, rest: Bytes)
    requires |got| == |want|
    requires r.Some? ==> |r.value| == |written + got + rest| && r.value[..|written + got|] == written + got
    ensures got != want ==> r != Some(written + (want + rest))
    ensures r.Some? ==> r.value[..|written|] == written
    ensures (written + got) + rest == written + (got + rest)
  {
    if r.Some? {
      assert r.value[..|written|] == r.value[..|written + got|][..|written|];
      if r == Some(written + (want + rest)) {
        assert (written + (want + rest))[..|written + want|] == written + want;
        assert (written + got)[|written|..] == got && (written + want)[|written|..] == want;
      }
    }
  }

  lemma AssembleEntry(digest: Digest, u: Update, i: nat, d: Disk)
    requires Setting(digest, u) && i < |u.next| && Ideal(u, i, d)
    ensures Assemble(d, u.temp, u.prev, u.next[i].name, [], u.next[i].chunks) == Some(Content(u.lib, u.next[i].chunks))
       <==> EntryOk(u, i)
  {
    hide SourceOk;
    hide Assemble;
    hide Content;
    hide Ideal;
    AssembleIdeal(digest, u, i, d, [], 0);
    assert u.next[i].chunks[0..] == u.next[i].chunks;
    assert [] + Content(u.lib, u.next[i].chunks) == Content(u.lib, u.next[i].chunks);
  }

  // ---------- one step of the loop ----------

  /** Whether an entry is merged does not depend on the entries merged before it. */
  lemma DueStays(u: Update, i: nat, d: Disk)
    requires UniqueNames(u.next) && AllKnown(u.lib, u.next) && i < |u.next| && Ideal(u, i, d)
    ensures NeedMerge(d, u.prev, u.next[i]) <==> Due(u, i)
  {
    hide FileIndex;
    NotYetRewritten(u, i);
    assert SameAt(d, u.disk, u.next[i].name);
  }

  lemma RewrittenNext(u: Update, i: nat, n: Name)
    requires i < |u.next|
    ensures Rewritten(u, i + 1, n) <==> Rewritten(u, i, n) || (u.next[i].name == n && Due(u, i))
  {
  }

  lemma SkipKeepsIdeal(u: Update, i: nat, d: Disk)
    requires AllKnown(u.lib, u.next) && i < |u.next| && Ideal(u, i, d) && !Due(u, i)
    ensures Ideal(u, i + 1, d)
  {
    hide Due;
    hide Content;
    forall n: Name | n in Names(u.prev) + Names(u.next) && !Rewritten(u, i + 1, n)
      ensures SameAt(d, u.disk, n)
    {
      RewrittenNext(u, i, n);
    }
  }

  lemma ReplaceKeepsIdeal(u: Update, i: nat, d: Disk)
    requires UniqueNames(u.next) && AllKnown(u.lib, u.next) && NoTempClash(u.prev, u.next)
    requires i < |u.next| && Ideal(u, i, d) && Due(u, i)
    ensures Ideal(u, i + 1, (d - {TempName(u.next[i].name)})[u.next[i].name := Content(u.lib, u.next[i].chunks)])
  {
    hide Due;
    hide Content;
    hide TempName;
    var e := u.next[i];
    var d' := (d - {TempName(e.name)})[e.name := Content(u.lib, e.chunks)];
    forall j | 0 <= j < i + 1 && Due(u, j)
      ensures u.next[j].name in d' && d'[u.next[j].name] == Content(u.lib, u.next[j].chunks)
    {
      assert u.next[j] in u.next;
    }
    forall n: Name | n in Names(u.prev) + Names(u.next) && !Rewritten(u, i + 1, n)
      ensures SameAt(d', u.disk, n)
    {
      RewrittenNext(u, i, n);
      assert SameAt(d, u.disk, n);
    }
  }

  /** The verified bytes of no assembled file collide with the content its entry stands for. */
  ghost predicate NoFalseAccept(digest: Digest, u: Update)
    requires AllKnown(u.lib, u.next)
  {
    forall i :: 0 <= i < |u.next| ==> AcceptsOnlyContent(digest, u, i)
  }

  ghost predicate AcceptsOnlyContent(digest: Digest, u: Update, i: nat)
    requires i < |u.next| && AllKnown(u.lib, u.next)
  {
    var r := Assemble(Upto(digest, u.disk, u.temp, u.prev, u.next, i).disk, u.temp, u.prev, u.next[i].name, [],
      u.next[i].chunks);
    r.Some? ==> NoCollision(digest, {r.value, Content(u.lib, u.next[i].chunks)})
  }

  lemma GoodStep(digest: Digest, u: Update, i: nat, m: Progress)
    requires Setting(digest, u) && i < |u.next| && Ideal(u, i, m.disk) && Due(u, i) && EntryOk(u, i)
    ensures var m' := Step(digest, u.temp, u.prev, m, u.next[i]);
            m'.failed == m.failed && m'.merged == m.merged + 1 && Ideal(u, i + 1, m'.disk)
  {
    hide Assemble;
    hide EntryOk;
    hide Content;
    hide TempName;
    hide Ideal;
    hide Due;
    DueStays(u, i, m.disk);
    AssembleEntry(digest, u, i, m.disk);
    ReplaceKeepsIdeal(u, i, m.disk);
    assert u.next[i] in u.next;
  }

  lemma BadStep(digest: Digest, u: Update, i: nat, m: Progress)
    requires Setting(digest, u) && i < |u.next| && Ideal(u, i, m.disk) && Due(u, i) && !EntryOk(u, i)
    requires m == Upto(digest, u.disk, u.temp, u.prev, u.next, i) && NoFalseAccept(digest, u)
    ensures Step(digest, u.temp, u.prev, m, u.next[i]).failed == m.failed + [u.next[i].name]
  {
    hide Assemble;
    hide EntryOk;
    hide Content;
    hide TempName;
    hide Ideal;
    hide Due;
    DueStays(u, i, m.disk);
    AssembleEntry(digest, u, i, m.disk);
    assert AcceptsOnlyContent(digest, u, i);
  }

  // ---------- the whole loop ----------

  lemma {:induction false} UptoIdeal(digest: Digest, u: Update, i: nat)
    requires Setting(digest, u) && i <= |u.next| && SourcesOk(u, i)
    ensures var m := Upto(digest, u.disk, u.temp, u.prev, u.next, i);
            m.failed == [] && Ideal(u, i, m.disk)
  {
    hide *;
    if i == 0 {
      StartIdeal(digest, u);
    } else {
      SourcesStep(u, i - 1);
      UptoIdeal(digest, u, i - 1);
      UptoStep(digest, u.disk, u.temp, u.prev, u.next, i - 1);
      var m := Upto(digest, u.disk, u.temp, u.prev, u.next, i - 1);
      if Due(u, i - 1) {
        GoodStep(digest, u, i - 1, m);
      } else {
        SkipStep(digest, u, i - 1, m);
      }
    }
  }

  lemma StartIdeal(digest: Digest, u: Update)
    requires Setting(digest, u)
    ensures AllKnown(u.lib, u.next)
    ensures Upto(digest, u.disk, u.temp, u.prev, u.next, 0) == Progress(u.disk, 0, []) && Ideal(u, 0, u.disk)
  {
    assert forall n: Name :: !Rewritten(u, 0, n);
  }

  lemma SourcesStep(u: Update, i: nat)
    requires i < |u.next|
    ensures SourcesOk(u, i + 1) <==> SourcesOk(u, i) && (Due(u, i) ==> EntryOk(u, i))
  {
    hide Due;
    hide EntryOk;
  }

  lemma SkipStep(digest: Digest, u: Update, i: nat, m: Progress)
    requires Setting(digest, u) && i < |u.next| && Ideal(u, i, m.disk) && !Due(u, i)
    ensures Step(digest, u.temp, u.prev, m, u.next[i]) == m && Ideal(u, i + 1, m.disk)
  {
    hide Ideal;
    hide Due;
    DueStays(u, i, m.disk);
    SkipKeepsIdeal(u, i, m.disk);
  }

  /** The first due entry without all of its sources, if there is one. */
  lemma {:induction false} FirstBad(u: Update, i: nat) returns (k: nat)
    requires i <= |u.next| && !SourcesOk(u, i)
    ensures k < i && Due(u, k) && !EntryOk(u, k) && SourcesOk(u, k)
  {
    if SourcesOk(u, i - 1) {
      k := i - 1;
    } else {
      k := FirstBad(u, i - 1);
    }
  }

  /**
   * A merge over any disk reports no failure exactly when every block of every due entry has a good source: its own
   * old file or a shared old file that still shows the block, a file replaced earlier in the loop by bytes that keep
   * the block in place, or a temporary block.
   */
  lemma MergeSucceedsIff(digest: Digest, u: Update)
    requires Setting(digest, u) && NoFalseAccept(digest, u)
    ensures MergeFiles(digest, u.disk, u.temp, u.prev, u.next).1.failed == [] <==> SourcesOk(u, |u.next|)
  {
    hide *;
    MergeEnd(digest, u.disk, u.temp, u.prev, u.next);
    if SourcesOk(u, |u.next|) {
      UptoIdeal(digest, u, |u.next|);
    } else {
      var k := FirstBad(u, |u.next|);
      BadFails(digest, u, k);
    }
  }

  /** From a due entry without its sources on the failure is noted. */
  lemma BadFails(digest: Digest, u: Update, k: nat)
    requires Setting(digest, u) && NoFalseAccept(digest, u)
    requires k < |u.next| && Due(u, k) && !EntryOk(u, k) && SourcesOk(u, k)
    ensures Upto(digest, u.disk, u.temp, u.prev, u.next, |u.next|).failed != []
  {
    hide *;
    var m := Upto(digest, u.disk, u.temp, u.prev, u.next, k);
    UptoIdeal(digest, u, k);
    BadStep(digest, u, k, m);
    UptoStep(digest, u.disk, u.temp, u.prev, u.next, k);
    FailedStay(digest, u.disk, u.temp, u.prev, u.next, k + 1, |u.next|);
    LastStays(m.failed, Upto(digest, u.disk, u.temp, u.prev, u.next, |u.next|).failed, u.next[k].name);
  }

  /** Disk and manifest agree: every file of the version is there, with exactly the bytes of its blocks. */
  ghost predicate Installed(lib: Library, d: Disk, files: seq<FileEntry>)
    requires AllKnown(lib, files)
  {
    forall i :: 0 <= i < |files| ==> files[i].name in d && d[files[i].name] == Content(lib, files[i].chunks)
  }

  /** Every entry that is not due already has its content on disk. */
  ghost predicate IdleHold(u: Update)
    requires AllKnown(u.lib, u.next)
  {
    forall i :: 0 <= i < |u.next| && !Due(u, i) ==>
      u.next[i].name in u.disk && u.disk[u.next[i].name] == Content(u.lib, u.next[i].chunks)
  }

  lemma KeptEntry(digest: Digest, u: Update, i: nat)
    requires Clean(digest, u) && i < |u.next| && !Due(u, i)
    ensures u.next[i].name in u.disk && u.disk[u.next[i].name] == Content(u.lib, u.next[i].chunks)
  {
    hide FileIndex;
    hide Content;
    hide ChunksKnown;
    hide NoTempClash;
    var e := u.next[i];
    IndexKeys(u.prev, e.name);
    var f := FileIndex(u.prev)[e.name];
    EntryOfName(u.prev, f);
    EntryOfName(u.next, e);
    var k :| 0 <= k < |u.prev| && u.prev[k] == f;
    assert HoldsOld(u, u.prev[k].name) || HoldsNew(u, u.prev[k].name);
    assert Content(u.lib, u.prev[k].chunks) == Content(u.lib, e.chunks);
  }

  /** Old or new content is enough for that. */
  lemma CleanIdle(digest: Digest, u: Update)
    requires Clean(digest, u)
    ensures IdleHold(u)
  {
    assert AllKnown(u.lib, u.next) by { SettingKnown(digest, u); }
    hide Due;
    hide Clean;
    forall i | 0 <= i < |u.next| && !Due(u, i)
      ensures u.next[i].name in u.disk && u.disk[u.next[i].name] == Content(u.lib, u.next[i].chunks)
    {
      KeptEntry(digest, u, i);
    }
  }

  /**
   * After a merge with good sources every dropped file is gone, and every file of the new version is exact if and only
   * if the files the merge left alone were.
   */
  lemma MergeInstallsIff(digest: Digest, u: Update)
    requires Setting(digest, u) && SourcesOk(u, |u.next|)
    ensures AllKnown(u.lib, u.next)
    ensures var (d, summary) := MergeFiles(digest, u.disk, u.temp, u.prev, u.next);
            summary.failed == [] && (Installed(u.lib, d, u.next) <==> IdleHold(u)) &&
            forall n :: n in Dropped(u.prev, u.next) ==> n !in d
  {
    hide *;
    UptoIdeal(digest, u, |u.next|);
    SettingKnown(digest, u);
    var m := Upto(digest, u.disk, u.temp, u.prev, u.next, |u.next|);
    IdealInstalled(digest, u, m.disk);
    DropKeeps(u, m.disk);
    MergeEnd(digest, u.disk, u.temp, u.prev, u.next);
    assert Names(u.prev) - Names(u.next) == Dropped(u.prev, u.next) by { DroppedNames(u); }
  }

  lemma DroppedNames(u: Update)
    ensures Names(u.prev) - Names(u.next) == Dropped(u.prev, u.next)
  {
  }

  /** In particular over files with old or new content the version is installed. */
  lemma MergeInstalls(digest: Digest, u: Update)
    requires Clean(digest, u) && SourcesOk(u, |u.next|)
    ensures var (d, summary) := MergeFiles(digest, u.disk, u.temp, u.prev, u.next);
            summary.failed == [] && Installed(u.lib, d, u.next) && forall n :: n in Dropped(u.prev, u.next) ==> n !in d
  {
    CleanIdle(digest, u);
    hide IdleHold;
    hide Installed;
    hide MergeFiles;
    hide SourcesOk;
    hide Dropped;
    MergeInstallsIff(digest, u);
  }

  lemma SettingKnown(digest: Digest, u: Update)
    requires Setting(digest, u)
    ensures AllKnown(u.lib, u.prev) && AllKnown(u.lib, u.next) && UniqueNames(u.prev) && UniqueNames(u.next)
  {
  }

  /** Deleting the dropped names touches no file of the new version. */
  lemma DropKeeps(u: Update, d: Disk)
    requires AllKnown(u.lib, u.next)
    ensures Installed(u.lib, d - Dropped(u.prev, u.next) * d.Keys, u.next) <==> Installed(u.lib, d, u.next)
    ensures forall n :: n in Dropped(u.prev, u.next) ==> n !in d - Dropped(u.prev, u.next) * d.Keys
  {
    hide Content;
    forall i | 0 <= i < |u.next|
      ensures u.next[i].name !in Dropped(u.prev, u.next)
    {
      assert u.next[i] in u.next;
    }
  }

  lemma IdealInstalled(digest: Digest, u: Update, d: Disk)
    requires Setting(digest, u) && Ideal(u, |u.next|, d)
    ensures Installed(u.lib, d, u.next) <==> IdleHold(u)
  {
    hide Content;
    hide Due;
    forall i | 0 <= i < |u.next| && !Due(u, i)
      ensures SameAt(d, u.disk, u.next[i].name)
    {
      assert u.next[i] in u.next;
      NotRewritten(u, i);
    }
  }

  lemma NotRewritten(u: Update, i: nat)
    requires UniqueNames(u.next) && i < |u.next| && !Due(u, i)
    ensures !Rewritten(u, |u.next|, u.next[i].name)
  {
    hide Due;
  }
}
