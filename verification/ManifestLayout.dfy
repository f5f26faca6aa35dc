/** The positions of every field in an encoded manifest. */
module ManifestLayout {
  import opened Common
  import opened Manifest

  /** The little-endian number in the `n` bytes at `at`. */
  function Number(b: Bytes, at: nat, n: nat): nat
    requires at + n <= |b|
    decreases n
  {
    if n == 0 then 0 else var rest := 256 * Number(b, at + 1, n - 1); b[at] + rest
  }

  lemma {:induction false} NumberOf(b: Bytes, c: Bytes, at: nat, n: nat)
    requires at + n <= |b| && n <= |c| && b[at..at + n] == c[..n]
    ensures Number(b, at, n) == Number(c, 0, n)
    decreases n
  {
    NumberShift(b, c, at, 0, n);
  }

  lemma {:induction false} NumberShift(b: Bytes, c: Bytes, at: nat, from: nat, n: nat)
    requires at + n <= |b| && from + n <= |c| && b[at..at + n] == c[from..from + n]
    ensures Number(b, at, n) == Number(c, from, n)
    decreases n
  {
    if n > 0 {
      assert b[at] == b[at..at + n][0] && c[from] == c[from..from + n][0];
      assert b[at + 1..at + n] == b[at..at + n][1..] && c[from + 1..from + n] == c[from..from + n][1..];
      NumberShift(b, c, at + 1, from + 1, n - 1);
    }
  }

  lemma WordsAreNumbers(w: U16, n: U32)
    ensures Number(LE16(w), 0, 2) == w && Number(LE32(n), 0, 4) == n
  {
    var b, c := LE16(w), LE32(n);
    assert Number(b, 2, 0) == 0 && Number(b, 1, 1) == b[1];
    assert Number(c, 4, 0) == 0 && Number(c, 3, 1) == c[3];
    assert Number(c, 2, 2) == c[2] + 256 * Number(c, 3, 1);
    assert Number(c, 1, 3) == c[1] + 256 * Number(c, 2, 2);
    SplitWord(n);
  }

  lemma {:induction false} ChunksLayout(cs: seq<ChunkMeta>, k: nat)
    requires k < |cs|
    ensures |EncodeChunks(cs)| == CHUNK_LEN * |cs|
    ensures var b, at := EncodeChunks(cs), CHUNK_LEN * k;
            b[at..at + 32] == cs[k].hash && Number(b, at + 32, 4) == cs[k].len
  {
    ChunksLength(cs);
    ChunksLength(cs[1..]);
    var b, at := EncodeChunks(cs), CHUNK_LEN * k;
    var first, rest := EncodeChunk(cs[0]), EncodeChunks(cs[1..]);
    assert b == first + rest && |first| == CHUNK_LEN;
    hide *;
    if k == 0 {
      ChunkLayout(cs[0]);
      InFront(b, first, rest, 0, 32);
      InFront(b, first, rest, 32, 4);
      NumberShift(b, first, 32, 32, 4);
    } else {
      ChunksLayout(cs[1..], k - 1);
      var at1 := CHUNK_LEN * (k - 1);
      assert b[CHUNK_LEN..] == rest;
      InTail(b, rest, CHUNK_LEN, at1, 32);
      InTail(b, rest, CHUNK_LEN, at1 + 32, 4);
      NumberShift(b, rest, at + 32, at1 + 32, 4);
    }
  }

  lemma InFront(b: Bytes, first: Bytes, rest: Bytes, at: nat, n: nat)
    requires b == first + rest && at + n <= |first|
    ensures b[at..at + n] == first[at..at + n]
  {
  }

  lemma ChunkLayout(c: ChunkMeta)
    ensures var b := EncodeChunk(c); b[0..32] == c.hash && Number(b, 32, 4) == c.len
  {
    hide Number;
    hide LE32;
    WordsAreNumbers(0, c.len);
    var b := EncodeChunk(c);
    assert b[32..36] == LE32(c.len);
    NumberOf(b, LE32(c.len), 32, 4);
  }

  lemma {:induction false} ChunksLength(cs: seq<ChunkMeta>)
    ensures |EncodeChunks(cs)| == CHUNK_LEN * |cs|
  {
    if cs != [] {
      ChunksLength(cs[1..]);
    }
  }

  /** A file entry: name length and name, file hash, block count, then 36 bytes for every block. */
  lemma FileLayout(f: FileEntry)
    ensures var b, n := EncodeFile(f), |f.name|;
            |b| == 38 + n + 36 * |f.chunks| && Number(b, 0, 2) == n % 0x1_0000 && b[2..2 + n] == f.name &&
            b[2 + n..34 + n] == f.fileHash && Number(b, 34 + n, 4) == |f.chunks| % TWO32 &&
            forall k :: 0 <= k < |f.chunks| ==>
              var at := 38 + n + 36 * k;
              b[at..at + 32] == f.chunks[k].hash && Number(b, at + 32, 4) == f.chunks[k].len
  {
    FileHead(f);
    hide EncodeFile;
    hide EncodeChunks;
    hide Number;
    var b, n, chunks := EncodeFile(f), |f.name|, EncodeChunks(f.chunks);
    forall k | 0 <= k < |f.chunks|
      ensures var at := 38 + n + 36 * k;
              b[at..at + 32] == f.chunks[k].hash && Number(b, at + 32, 4) == f.chunks[k].len
    {
      ChunksLayout(f.chunks, k);
      var at, at1 := 38 + n + 36 * k, CHUNK_LEN * k;
      InTail(b, chunks, 38 + n, at1, 32);
      InTail(b, chunks, 38 + n, at1 + 32, 4);
      NumberShift(b, chunks, at + 32, at1 + 32, 4);
    }
  }

  lemma FileHead(f: FileEntry)
    ensures var b, n := EncodeFile(f), |f.name|;
            |b| == 38 + n + 36 * |f.chunks| && Number(b, 0, 2) == n % 0x1_0000 && b[2..2 + n] == f.name &&
            b[2 + n..34 + n] == f.fileHash && Number(b, 34 + n, 4) == |f.chunks| % TWO32 &&
            b[38 + n..] == EncodeChunks(f.chunks)
  {
    hide LE16;
    hide LE32;
    hide Number;
    hide EncodeChunks;
    var b, n := EncodeFile(f), |f.name|;
    var size, count := LE16(AsU16(n)), LE32(AsU32(|f.chunks|));
    WordsAreNumbers(AsU16(n), AsU32(|f.chunks|));
    ChunksLength(f.chunks);
    assert b[0..2] == size;
    NumberOf(b, size, 0, 2);
    assert b[34 + n..38 + n] == count;
    NumberOf(b, count, 34 + n, 4);
  }

  lemma InTail(b: Bytes, tail: Bytes, cut: nat, at: nat, n: nat)
    requires cut <= |b| && b[cut..] == tail && at + n <= |tail|
    ensures b[cut + at..cut + at + n] == tail[at..at + n]
  {
    assert b == b[..cut] + tail;
    assert b[cut..][at..at + n] == tail[at..at + n];
    assert b[cut..][at..at + n] == b[cut + at..cut + at + n] by { SliceOfTail(b, cut, at, n); }
  }

  lemma SliceOfTail(b: Bytes, cut: nat, at: nat, n: nat)
    requires cut + at + n <= |b|
    ensures b[cut..][at..at + n] == b[cut + at..cut + at + n]
  {
  }

  /** The whole manifest: magic, version, zero flags, file count, the files one after the other, its hash. */
  lemma ManifestLayout(x: GameIndex)
    ensures var b := Encode(x);
            |b| >= 45 && b[0..5] == [0x42, 0x4C, 0x5A, 0x47, 0x49] && Number(b, 5, 2) == x.formatVersion &&
            Number(b, 7, 2) == 0 && Number(b, 9, 4) == |x.files| % TWO32 &&
            b[13..|b| - 32] == EncodeFiles(x.files) && b[|b| - 32..] == x.manifestHash
  {
    hide LE16;
    hide LE32;
    hide Number;
    hide EncodeFiles;
    var b := Encode(x);
    WordsAreNumbers(x.formatVersion, AsU32(|x.files|));
    WordsAreNumbers(0, 0);
    assert b[5..7] == LE16(x.formatVersion) && b[7..9] == LE16(0) && b[9..13] == LE32(AsU32(|x.files|));
    NumberOf(b, LE16(x.formatVersion), 5, 2);
    NumberOf(b, LE16(0), 7, 2);
    NumberOf(b, LE32(AsU32(|x.files|)), 9, 4);
  }

  /** Files follow one another without gaps. */
  lemma FilesInOrder(before: seq<FileEntry>, f: FileEntry, after: seq<FileEntry>)
    ensures EncodeFiles(before + [f] + after) == EncodeFiles(before) + EncodeFile(f) + EncodeFiles(after)
  {
    hide EncodeFile;
    FilesAppend(before + [f], after);
    EncodeFilesSnoc(before, f);
  }

  lemma {:induction false} FilesAppend(a: seq<FileEntry>, b: seq<FileEntry>)
    ensures EncodeFiles(a + b) == EncodeFiles(a) + EncodeFiles(b)
  {
    hide EncodeFile;
    if a == [] {
      assert a + b == b;
    } else {
      FilesAppend(a[1..], b);
      assert (a + b)[1..] == a[1..] + b && (a + b)[0] == a[0];
      JoinAssociates(EncodeFile(a[0]), EncodeFiles(a[1..]), EncodeFiles(b));
    }
  }
}
