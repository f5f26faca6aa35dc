/** Two files that trade contents: an update that fails and that no number of retries completes. */
module MergeSwap {
  import opened Common
  import opened Manifest
  import opened ChunkMap
  import opened UpdatePlan
  import opened Merge
  import opened CafeUpdate

  const A: Name := [0x61]
  const B: Name := [0x62]

  /** Files `a` and `b`, one block each, whose file hash is the hash of that block. */
  function Pair(inA: Hash, inB: Hash): seq<FileEntry> {
    [FileEntry(A, inA, [ChunkMeta(inA, 1)]), FileEntry(B, inB, [ChunkMeta(inB, 1)])]
  }

  lemma PairFacts(x: Hash, y: Hash)
    requires x != y
    ensures A != B
    ensures FileIndex(Pair(x, y)) == map[A := Pair(x, y)[0], B := Pair(x, y)[1]]
    ensures FileMap(Pair(x, y)[0]) == map[x := Loc(A, 0, 1)] && FileMap(Pair(x, y)[1]) == map[y := Loc(B, 0, 1)]
    ensures BuildMap(Pair(x, y)) == map[x := Loc(A, 0, 1), y := Loc(B, 0, 1)]
  {
    assert A[0] != B[0];
    var p := Pair(x, y);
    assert p[..1] == [p[0]] && p[..1][..0] == [] && p[1..] == [p[1]] && p[1..][1..] == [];
    assert FileIndex(p[..1]) == map[A := p[0]];
    AddOne(map[], A, x);
    AddOne(map[], B, y);
    AddOne(map[x := Loc(A, 0, 1)], B, y);
    hide AddFile;
    assert AddFiles(map[x := Loc(A, 0, 1)], p[1..]) == AddFiles(map[x := Loc(A, 0, 1), y := Loc(B, 0, 1)], []);
  }

  lemma AddOne(m: ChunkMap, name: Name, hash: Hash)
    requires hash !in m
    ensures AddFile(m, name, 0, [ChunkMeta(hash, 1)]) == m[hash := Loc(name, 0, 1)]
  {
    var cs := [ChunkMeta(hash, 1)];
    assert cs[1..] == [];
  }

  lemma TempNames()
    ensures TempName(A) != A && TempName(A) != B && TempName(B) != A && TempName(B) != B
  {
    TempNameEndsInNew(A);
    TempNameEndsInNew(B);
  }

  lemma AssembleOne(d: Disk, prev: seq<FileEntry>, name: Name, hash: Hash)
    ensures var p := Piece(d[TempName(name) := []], map[], prev, name, hash);
            Assemble(d, map[], prev, name, [], [ChunkMeta(hash, 1)]) == p
  {
    hide Piece;
    hide TempName;
    var cs := [ChunkMeta(hash, 1)];
    assert cs[1..] == [];
    var p := Piece(d[TempName(name) := []], map[], prev, name, hash);
    if p.Some? {
      assert [] + p.value == p.value;
    }
  }

  /** `a` takes the bytes of `b`. */
  lemma MergeA(digest: Digest, x: Byte, y: Byte, d: Disk)
    requires digest([x]) != digest([y])
    requires d == map[A := [x], B := [y]] || d == map[A := [y], B := [y]]
    ensures MergeOne(digest, d, map[], Pair(digest([x]), digest([y])), Pair(digest([y]), digest([x]))[0])
         == (map[A := [y], B := [y]], true)
  {
    hide TempName;
    hide FileIndex;
    hide FileMap;
    hide BuildMap;
    var hx, hy := digest([x]), digest([y]);
    PairFacts(hx, hy);
    TempNames();
    AssembleOne(d, Pair(hx, hy), A, hy);
    hide Assemble;
    var d' := d[TempName(A) := []];
    assert d'[B] == [y] && [y][0..1] == [y];
    assert ReadAt(d'[B], 0, 1) == Some([y]);
    assert Piece(d', map[], Pair(hx, hy), A, hy) == Some([y]);
    assert (d - {TempName(A)})[A := [y]] == map[A := [y], B := [y]];
  }

  /** `b` looks for its block in `a`, which holds other bytes by now. */
  lemma MergeB(digest: Digest, x: Byte, y: Byte)
    requires digest([x]) != digest([y])
    ensures MergeOne(digest, map[A := [y], B := [y]], map[], Pair(digest([x]), digest([y])),
      Pair(digest([y]), digest([x]))[1])
         == (map[A := [y], B := [y]], false)
  {
    hide TempName;
    hide FileIndex;
    hide FileMap;
    hide BuildMap;
    var hx, hy := digest([x]), digest([y]);
    var d := map[A := [y], B := [y]];
    PairFacts(hx, hy);
    TempNames();
    AssembleOne(d, Pair(hx, hy), B, hx);
    hide Assemble;
    var d' := d[TempName(B) := []];
    assert d'[A] == [y] && [y][0..1] == [y];
    assert ReadAt(d'[A], 0, 1) == Some([y]);
    assert Piece(d', map[], Pair(hx, hy), B, hx) == Some([y]);
    assert d - {TempName(B)} == d;
  }

  lemma SwapRound(digest: Digest, x: Byte, y: Byte, d: Disk)
    requires digest([x]) != digest([y])
    requires d == map[A := [x], B := [y]] || d == map[A := [y], B := [y]]
    ensures MergeFiles(digest, d, map[], Pair(digest([x]), digest([y])), Pair(digest([y]), digest([x])))
         == (map[A := [y], B := [y]], Summary(1, 0, [B]))
  {
    hide MergeOne;
    hide FileIndex;
    var prev, next := Pair(digest([x]), digest([y])), Pair(digest([y]), digest([x]));
    PairFacts(digest([x]), digest([y]));
    MergeA(digest, x, y, d);
    MergeB(digest, x, y);
    var after := map[A := [y], B := [y]];
    assert Upto(digest, d, map[], prev, next, 1) == Progress(after, 1, []);
    assert Upto(digest, d, map[], prev, next, 2) == Progress(after, 1, [B]);
    assert prev[0] in prev && prev[1] in prev && next[0] in next && next[1] in next;
    assert Dropped(prev, next) == {};
    assert after - {} == after;
  }

  /** The disk after `n` attempts at the same update. */
  function Attempts(digest: Digest, d: Disk, temp: Temp, prev: seq<FileEntry>, next: seq<FileEntry>, n: nat): Disk {
    if n == 0 then d else MergeFiles(digest, Attempts(digest, d, temp, prev, next, n - 1), temp, prev, next).0
  }

  /**
   * Swapping two files never completes: every attempt leaves `b` failed, `a` already has the new bytes, and there is
   * nothing to download that could help.
   */
  lemma {:induction false} SwapNeverConverges(digest: Digest, x: Byte, y: Byte, n: nat)
    requires digest([x]) != digest([y])
    ensures var prev, next := Pair(digest([x]), digest([y])), Pair(digest([y]), digest([x]));
            var d := Attempts(digest, map[A := [x], B := [y]], map[], prev, next, n);
            (d == map[A := [x], B := [y]] || d == map[A := [y], B := [y]]) &&
            DownloadSet(next, prev, {}, d) == {} &&
            MergeFiles(digest, d, map[], prev, next).1.failed == [B]
  {
    hide MergeFiles;
    var prev, next := Pair(digest([x]), digest([y])), Pair(digest([y]), digest([x]));
    if n > 0 {
      SwapNeverConverges(digest, x, y, n - 1);
      SwapRound(digest, x, y, Attempts(digest, map[A := [x], B := [y]], map[], prev, next, n - 1));
    }
    var d := Attempts(digest, map[A := [x], B := [y]], map[], prev, next, n);
    SwapRound(digest, x, y, d);
    NothingToDownload(digest, x, y, d);
  }

  lemma NothingToDownload(digest: Digest, x: Byte, y: Byte, d: Disk)
    requires A in d && B in d
    ensures DownloadSet(Pair(digest([y]), digest([x])), Pair(digest([x]), digest([y])), {}, d) == {}
  {
    ChunkPair(digest([x]), digest([y]));
    ChunkPair(digest([y]), digest([x]));
    hide ChunkSet;
  }

  lemma ChunkPair(x: Hash, y: Hash)
    ensures ChunkSet(Pair(x, y)) == {x, y}
  {
    var p := Pair(x, y);
    assert p[..1] == [p[0]] && p[..1][..0] == [];
    assert AllChunks(p[..1]) == p[0].chunks;
    assert AllChunks(p) == [ChunkMeta(x, 1), ChunkMeta(y, 1)];
    assert AllChunks(p)[0].hash == x && AllChunks(p)[1].hash == y;
  }
}
