/** One file whose two blocks trade places: the first merge succeeds, and no later attempt at the same update does. */
module MergePermute {
  import opened Common
  import opened Manifest
  import opened ChunkMap
  import opened UpdatePlan
  import opened Merge
  import opened CafeUpdate
  import opened MergeSwap

  /** File `a` with two one-byte blocks. */
  function One(first: Hash, second: Hash, fileHash: Hash): seq<FileEntry> {
    [FileEntry(A, fileHash, [ChunkMeta(first, 1), ChunkMeta(second, 1)])]
  }

  lemma OneFacts(x: Hash, y: Hash, fileHash: Hash)
    requires x != y
    ensures FileIndex(One(x, y, fileHash)) == map[A := One(x, y, fileHash)[0]]
    ensures FileMap(One(x, y, fileHash)[0]) == map[x := Loc(A, 0, 1), y := Loc(A, 1, 1)]
    ensures ChunkSet(One(x, y, fileHash)) == {x, y}
  {
    var p := One(x, y, fileHash);
    var cs := p[0].chunks;
    assert p[..0] == [] && cs[1..] == [ChunkMeta(y, 1)] && cs[1..][1..] == [];
    assert AllChunks(p) == cs;
    assert cs[0].hash == x && cs[1].hash == y;
    TwoBlocks(x, y);
    hide AddFile;
  }

  lemma TwoBlocks(x: Hash, y: Hash)
    requires x != y
    ensures AddFile(map[], A, 0, [ChunkMeta(x, 1), ChunkMeta(y, 1)]) == map[x := Loc(A, 0, 1), y := Loc(A, 1, 1)]
  {
    var cs := [ChunkMeta(x, 1), ChunkMeta(y, 1)];
    var m := map[x := Loc(A, 0, 1)];
    assert cs[1..] == [ChunkMeta(y, 1)] && cs[1..][1..] == [];
    assert AddFile(m, A, 1, cs[1..]) == AddFile(m[y := Loc(A, 1, 1)], A, 2, []);
  }

  /** A block is read from the file's own old place, whatever the file holds now. */
  lemma OwnPlace(x: Hash, y: Hash, fileHash: Hash, d: Disk, written: Bytes)
    requires x != y && A in d && |d[A]| == 2
    ensures var d' := d[TempName(A) := written];
            Piece(d', map[], One(x, y, fileHash), A, x) == Some([d[A][0]]) &&
              Piece(d', map[], One(x, y, fileHash), A, y) == Some([d[A][1]])
  {
    OneFacts(x, y, fileHash);
    TempNames();
    hide TempName;
    hide FileIndex;
    hide FileMap;
    hide BuildMap;
    assert d[A][1..2] == [d[A][1]] && d[A][0..1] == [d[A][0]];
  }

  lemma AssembleTwo(digest: Digest, x: Byte, y: Byte, d: Disk)
    requires digest([x]) != digest([y]) && A in d && |d[A]| == 2
    ensures var hx, hy := digest([x]), digest([y]);
            Assemble(d, map[], One(hx, hy, digest([x, y])), A, [], [ChunkMeta(hy, 1), ChunkMeta(hx, 1)])
                 == Some([d[A][1], d[A][0]])
  {
    hide Piece;
    hide Assemble;
    hide TempName;
    var hx, hy := digest([x]), digest([y]);
    var prev := One(hx, hy, digest([x, y]));
    var b0, b1 := d[A][0], d[A][1];
    OwnPlace(hx, hy, digest([x, y]), d, []);
    OwnPlace(hx, hy, digest([x, y]), d, [b1]);
    assert [] + [b1] == [b1] && [b1] + [b0] == [b1, b0];
    AssembleMore(d, prev, A, [], ChunkMeta(hy, 1), [ChunkMeta(hx, 1)]);
    AssembleMore(d, prev, A, [b1], ChunkMeta(hx, 1), []);
    assert [ChunkMeta(hy, 1)] + [ChunkMeta(hx, 1)] == [ChunkMeta(hy, 1), ChunkMeta(hx, 1)];
    assert [ChunkMeta(hx, 1)] + [] == [ChunkMeta(hx, 1)];
    AssembleNone(d, prev, A, [b1, b0]);
  }

  lemma AssembleMore(d: Disk, prev: seq<FileEntry>, name: Name, written: Bytes, c: ChunkMeta, rest: seq<ChunkMeta>)
    ensures var p := Piece(d[TempName(name) := written], map[], prev, name, c.hash);
            p.Some? ==>
              Assemble(d, map[], prev, name, written, [c] + rest)
              == Assemble(d, map[], prev, name, written + p.value, rest)
  {
    hide Piece;
    hide TempName;
    assert ([c] + rest)[1..] == rest;
  }

  lemma AssembleNone(d: Disk, prev: seq<FileEntry>, name: Name, written: Bytes)
    ensures Assemble(d, map[], prev, name, written, []) == Some(written)
  {
  }

  lemma PermuteStep(digest: Digest, x: Byte, y: Byte, d: Disk)
    requires digest([x]) != digest([y]) && digest([x, y]) != digest([y, x])
    requires d == map[A := [x, y]] || d == map[A := [y, x]]
    ensures var prev := One(digest([x]), digest([y]), digest([x, y]));
            var next := One(digest([y]), digest([x]), digest([y, x]));
            Step(digest, map[], prev, Progress(d, 0, []), next[0])
            == if d == map[A := [x, y]] then Progress(map[A := [y, x]], 1, []) else Progress(map[A := [y, x]], 0, [A])
  {
    hide *;
    var prev, next := One(digest([x]), digest([y]), digest([x, y])), One(digest([y]), digest([x]), digest([y, x]));
    DueAgain(digest, x, y, d);
    TempApart(d);
    var data := if d == map[A := [x, y]] then [y, x] else [x, y];
    assert A in d && |d[A]| == 2 && [d[A][1], d[A][0]] == data by { DiskBytes(x, y, d); }
    AssembleTwo(digest, x, y, d);
    MergeAssembled(digest, d, prev, next[0], data);
    OneStep(digest, d, prev, next[0]);
    assert d[A := [y, x]] == map[A := [y, x]] by { DiskBytes(x, y, d); }
    assert d != map[A := [x, y]] ==> d == map[A := [y, x]];
  }

  lemma DueAgain(digest: Digest, x: Byte, y: Byte, d: Disk)
    requires digest([x]) != digest([y]) && digest([x, y]) != digest([y, x])
    ensures var prev := One(digest([x]), digest([y]), digest([x, y]));
            var next := One(digest([y]), digest([x]), digest([y, x]));
            |next| == 1 && NeedMerge(d, prev, next[0]) && next[0].name == A && next[0].fileHash == digest([y, x]) &&
            next[0].chunks == [ChunkMeta(digest([y]), 1), ChunkMeta(digest([x]), 1)]
  {
    OneFacts(digest([x]), digest([y]), digest([x, y]));
    hide FileIndex;
  }

  lemma TempApart(d: Disk)
    requires d.Keys == {A}
    ensures TempName(A) != A && TempName(A) !in d
  {
    TempNames();
    hide TempName;
  }

  lemma DiskBytes(x: Byte, y: Byte, d: Disk)
    requires d == map[A := [x, y]] || d == map[A := [y, x]]
    ensures A in d && |d[A]| == 2 && d[A := [y, x]] == map[A := [y, x]]
    ensures [d[A][1], d[A][0]] == if d == map[A := [x, y]] then [y, x] else [x, y]
  {
  }

  lemma MergeAssembled(digest: Digest, d: Disk, prev: seq<FileEntry>, e: FileEntry, data: Bytes)
    requires Assemble(d, map[], prev, e.name, [], e.chunks) == Some(data) && TempName(e.name) != e.name &&
      TempName(e.name) !in d
    ensures MergeOne(digest, d, map[], prev, e)
         == if digest(data) == e.fileHash then (d[e.name := data], true) else (d, false)
  {
    hide Assemble;
    hide TempName;
    assert d - {TempName(e.name)} == d;
  }

  lemma OneStep(digest: Digest, d: Disk, prev: seq<FileEntry>, e: FileEntry)
    requires NeedMerge(d, prev, e)
    ensures var (d', ok) := MergeOne(digest, d, map[], prev, e);
            Step(digest, map[], prev, Progress(d, 0, []), e)
            == if ok then Progress(d', 1, []) else Progress(d', 0, [e.name])
  {
    hide MergeOne;
    hide NeedMerge;
  }

  lemma PermuteRound(digest: Digest, x: Byte, y: Byte, d: Disk)
    requires digest([x]) != digest([y]) && digest([x, y]) != digest([y, x])
    requires d == map[A := [x, y]] || d == map[A := [y, x]]
    ensures var prev := One(digest([x]), digest([y]), digest([x, y]));
            var next := One(digest([y]), digest([x]), digest([y, x]));
            MergeFiles(digest, d, map[], prev, next)
            == (map[A := [y, x]], if d == map[A := [x, y]] then Summary(1, 0, []) else Summary(0, 0, [A]))
  {
    var prev, next := One(digest([x]), digest([y]), digest([x, y])), One(digest([y]), digest([x]), digest([y, x]));
    assert |prev| == |next| == 1 && prev[0].name == next[0].name;
    hide *;
    UptoStart(digest, d, map[], prev, next);
    UptoStep(digest, d, map[], prev, next, 0);
    PermuteStep(digest, x, y, d);
    SameName(prev, next);
    NoneDropped(digest, d, prev, next);
  }

  lemma NoneDropped(digest: Digest, d: Disk, prev: seq<FileEntry>, next: seq<FileEntry>)
    requires Names(prev) - Names(next) == {}
    ensures var m := Upto(digest, d, map[], prev, next, |next|);
            MergeFiles(digest, d, map[], prev, next) == (m.disk, Summary(m.merged, 0, m.failed))
  {
    hide *;
    MergeEnd(digest, d, map[], prev, next);
    var m := Upto(digest, d, map[], prev, next, |next|);
    var gone: set<Path> := {};
    assert gone * m.disk.Keys == gone && m.disk - gone == m.disk;
  }

  lemma SameName(prev: seq<FileEntry>, next: seq<FileEntry>)
    requires |prev| == |next| == 1 && prev[0].name == next[0].name
    ensures Names(prev) - Names(next) == {}
  {
    assert next[0] in next;
  }

  /**
   * The first attempt installs the file. Stopped before the new manifest is saved, every later attempt takes the
   * blocks from their old places in the new file and fails, with nothing left to download.
   */
  lemma {:induction false} PermuteNeverRetries(digest: Digest, x: Byte, y: Byte, n: nat)
    requires digest([x]) != digest([y]) && digest([x, y]) != digest([y, x])
    ensures var prev := One(digest([x]), digest([y]), digest([x, y]));
            var next := One(digest([y]), digest([x]), digest([y, x]));
            var d := Attempts(digest, map[A := [x, y]], map[], prev, next, n);
            d == (if n == 0 then map[A := [x, y]] else map[A := [y, x]]) &&
            DownloadSet(next, prev, {}, d) == {} &&
            MergeFiles(digest, d, map[], prev, next)
                 == (map[A := [y, x]], Summary(if n == 0 then 1 else 0, 0, if n == 0 then [] else [A]))
  {
    hide MergeFiles;
    var prev, next := One(digest([x]), digest([y]), digest([x, y])), One(digest([y]), digest([x]), digest([y, x]));
    if n > 0 {
      PermuteNeverRetries(digest, x, y, n - 1);
    }
    var d := Attempts(digest, map[A := [x, y]], map[], prev, next, n);
    PermuteRound(digest, x, y, d);
    assert map[A := [x, y]][A] != map[A := [y, x]][A];
    OneFacts(digest([x]), digest([y]), digest([x, y]));
    OneFacts(digest([y]), digest([x]), digest([y, x]));
    hide ChunkSet;
  }
}
