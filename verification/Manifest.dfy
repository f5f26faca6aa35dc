/** The `.gameindex` version manifest: its data model and its binary form. */
module Manifest {
  import opened Common

  type U16 = n: nat | n < 0x1_0000
  type U32 = n: nat | n < TWO32

  // A Rust `String` is a byte string that satisfies section 4 of RFC 3629.
  type Name = b: Bytes | ValidUtf8(b)

  datatype ChunkMeta = ChunkMeta(hash: Hash, len: U32)
  datatype FileEntry = FileEntry(name: Name, fileHash: Hash, chunks: seq<ChunkMeta>)
  datatype GameIndex = GameIndex(formatVersion: U16, files: seq<FileEntry>, manifestHash: Hash)

  datatype DecodeError = TooShort | BadMagic | UnexpectedEof | NotUtf8 | TrailingData | HashMismatch

  datatype Result<+T> = Ok(value: T) | Err(error: DecodeError) {
    predicate IsFailure() { Err? }
    function PropagateFailure<U>(): Result<U> requires Err? { Err(error) }
    function Extract(): T requires Ok? { value }
  }

  const MAGIC: Bytes := [0x42, 0x4C, 0x5A, 0x47, 0x49]
  const FORMAT_VERSION: U16 := 1
  const HEADER_LEN := 13

  // ---------- UTF-8 ----------

  predicate Tail(b: Byte) {
    0x80 <= b <= 0xBF
  }

  /** The length of the UTF-8 character that starts `b`, or 0 when no character does. */
  function CharLen(b: Bytes): (n: nat)
    ensures n <= |b| && n <= 4
  {
    if |b| >= 1 && b[0] <= 0x7F then 1
    else if |b| >= 2 && 0xC2 <= b[0] <= 0xDF && Tail(b[1]) then 2
    else if |b| >= 3 && Tail(b[2]) &&
            ((b[0] == 0xE0 && 0xA0 <= b[1] <= 0xBF) || (0xE1 <= b[0] <= 0xEC && Tail(b[1])) ||
             (b[0] == 0xED && 0x80 <= b[1] <= 0x9F) || (0xEE <= b[0] <= 0xEF && Tail(b[1]))) then 3
    else if |b| >= 4 && Tail(b[2]) && Tail(b[3]) &&
            ((b[0] == 0xF0 && 0x90 <= b[1] <= 0xBF) || (0xF1 <= b[0] <= 0xF3 && Tail(b[1])) ||
             (b[0] == 0xF4 && 0x80 <= b[1] <= 0x8F)) then 4
    else 0
  }

  predicate ValidUtf8(b: Bytes) {
    b == [] || (CharLen(b) > 0 && ValidUtf8(b[CharLen(b)..]))
  }

  // ---------- little-endian integers ----------

  function LE16(n: U16): (b: Bytes)
    ensures |b| == 2
  {
    [n % 256, n / 256]
  }

  function LE32(n: U32): (b: Bytes)
    ensures |b| == 4
  {
    [n % 256, n / 256 % 256, n / 256 / 256 % 256, n / 256 / 256 / 256]
  }

  function FromLE16(b: Bytes): U16
    requires |b| == 2
  {
    var lo: nat, hi: nat := b[0], b[1];
    lo + 256 * hi
  }

  function FromLE32(b: Bytes): U32
    requires |b| == 4
  {
    var b0: nat, b1: nat, b2: nat, b3: nat := b[0], b[1], b[2], b[3];
    b0 + 256 * (b1 + 256 * (b2 + 256 * b3))
  }

  /** The casts `as u16` and `as u32`, which keep the low bits of a length. */
  function AsU16(n: nat): U16 {
    n % 0x1_0000
  }

  function AsU32(n: nat): U32 {
    n % TWO32
  }

  lemma Words16(n: U16, b: Bytes)
    requires |b| == 2
    ensures FromLE16(LE16(n)) == n && LE16(FromLE16(b)) == b
  {
  }

  lemma Words32(n: U32, b: Bytes)
    requires |b| == 4
    ensures FromLE32(LE32(n)) == n && LE32(FromLE32(b)) == b
  {
    SplitWord(n);
    JoinWord(b[0], b[1], b[2], b[3]);
    assert b == [b[0], b[1], b[2], b[3]];
  }

  lemma SplitWord(n: nat)
    ensures n == n % 256 + 256 * (n / 256 % 256 + 256 * (n / 256 / 256 % 256 + 256 * (n / 256 / 256 / 256)))
  {
    var m := n / 256;
    var k := m / 256;
    assert k == k % 256 + 256 * (k / 256);
  }

  lemma JoinWord(b0: Byte, b1: Byte, b2: Byte, b3: Byte)
    ensures var m: nat := b0 + 256 * (b1 + 256 * (b2 + 256 * (b3 as int)));
            m % 256 == b0 && m / 256 % 256 == b1 && m / 256 / 256 % 256 == b2 && m / 256 / 256 / 256 == b3
  {
    var k: nat := b2 + 256 * (b3 as int);
    assert k % 256 == b2 && k / 256 == b3;
    var j: nat := b1 + 256 * k;
    assert j % 256 == b1 && j / 256 == k;
  }

  // ---------- encoding ----------

  function EncodeChunk(c: ChunkMeta): Bytes {
    c.hash + LE32(c.len)
  }

  function EncodeChunks(cs: seq<ChunkMeta>): Bytes {
    if cs == [] then [] else EncodeChunk(cs[0]) + EncodeChunks(cs[1..])
  }

  function EncodeFile(f: FileEntry): Bytes {
    LE16(AsU16(|f.name|)) + f.name + f.fileHash + LE32(AsU32(|f.chunks|)) + EncodeChunks(f.chunks)
  }

  function EncodeFiles(fs: seq<FileEntry>): Bytes {
    if fs == [] then [] else EncodeFile(fs[0]) + EncodeFiles(fs[1..])
  }

  function Body(version: U16, flags: U16, files: seq<FileEntry>): Bytes {
    MAGIC + LE16(version) + LE16(flags) + LE32(AsU32(|files|)) + EncodeFiles(files)
  }

  function Encode(x: GameIndex): Bytes {
    Body(x.formatVersion, 0, x.files) + x.manifestHash
  }

  function Build(digest: Digest, files: seq<FileEntry>): GameIndex {
    GameIndex(FORMAT_VERSION, files, digest(Body(FORMAT_VERSION, 0, files)))
  }

  lemma {:induction false} EncodeChunksSnoc(cs: seq<ChunkMeta>, c: ChunkMeta)
    ensures EncodeChunks(cs + [c]) == EncodeChunks(cs) + EncodeChunk(c)
  {
    if cs == [] {
      assert [c][1..] == [];
    } else {
      EncodeChunksSnoc(cs[1..], c);
      assert (cs + [c])[1..] == cs[1..] + [c];
    }
  }

  lemma {:induction false} EncodeFilesSnoc(fs: seq<FileEntry>, f: FileEntry)
    ensures EncodeFiles(fs + [f]) == EncodeFiles(fs) + EncodeFile(f)
  {
    if fs == [] {
      assert [f][1..] == [];
    } else {
      hide EncodeFile;
      EncodeFilesSnoc(fs[1..], f);
      assert (fs + [f])[1..] == fs[1..] + [f] && (fs + [f])[0] == fs[0];
      JoinAssociates(EncodeFile(fs[0]), EncodeFiles(fs[1..]), EncodeFile(f));
    }
  }

  method EncodeEntry(file: FileEntry, before: Bytes) returns (out: Bytes)
    ensures out == before + EncodeFile(file)
  {
    ghost var head := LE16(AsU16(|file.name|)) + file.name + file.fileHash + LE32(AsU32(|file.chunks|));
    out := before + LE16(AsU16(|file.name|));
    out := out + file.name;
    out := out + file.fileHash;
    out := out + LE32(AsU32(|file.chunks|));
    assert out == before + head;
    for j := 0 to |file.chunks|
      invariant out == before + (head + EncodeChunks(file.chunks[..j]))
    {
      out := out + file.chunks[j].hash;
      out := out + LE32(file.chunks[j].len);
      EncodeChunksSnoc(file.chunks[..j], file.chunks[j]);
      assert file.chunks[..j + 1] == file.chunks[..j] + [file.chunks[j]];
      assert out == before + (head + EncodeChunks(file.chunks[..j])) + EncodeChunk(file.chunks[j]);
    }
    assert file.chunks[..|file.chunks|] == file.chunks;
  }

  method EncodeBody(x: GameIndex) returns (out: Bytes)
    ensures out == Body(x.formatVersion, 0, x.files)
  {
    out := MAGIC + LE16(x.formatVersion) + LE16(0) + LE32(AsU32(|x.files|));
    ghost var head := out;
    hide *;
    assert EncodeFiles(x.files[..0]) == [] by { EncodeNoFiles(x.files); }
    for i := 0 to |x.files|
      invariant out == head + EncodeFiles(x.files[..i])
    {
      out := EncodeEntry(x.files[i], out);
      EncodeFilesSnoc(x.files[..i], x.files[i]);
      JoinAssociates(head, EncodeFiles(x.files[..i]), EncodeFile(x.files[i]));
      assert x.files[..i + 1] == x.files[..i] + [x.files[i]];
    }
    assert x.files[..|x.files|] == x.files;
    BodyIs(x);
  }

  /** The index of these files, with the hash of its own encoding. */
  method BuildIndex(digest: Digest, files: seq<FileEntry>) returns (x: GameIndex)
    ensures x == Build(digest, files)
    ensures x.files == files && x.formatVersion == 1 && x.manifestHash == digest(Body(1, 0, files))
  {
    x := GameIndex(FORMAT_VERSION, files, ZeroHash());
    var encoded := EncodeBody(x);
    x := x.(manifestHash := digest(encoded));
  }

  lemma EncodeNoFiles(files: seq<FileEntry>)
    ensures EncodeFiles(files[..0]) == []
  {
  }

  lemma BodyIs(x: GameIndex)
    ensures Body(x.formatVersion, 0, x.files)
         == MAGIC + LE16(x.formatVersion) + LE16(0) + LE32(AsU32(|x.files|)) + EncodeFiles(x.files)
  {
  }

  // ---------- decoding ----------

  const CHUNK_LEN := 36

  function ParseChunk(b: Bytes): ChunkMeta
    requires |b| >= CHUNK_LEN
  {
    ChunkMeta(b[..HASH_LEN], FromLE32(b[HASH_LEN..CHUNK_LEN]))
  }

  /** `n` block entries at the front of `b`, and what follows them. */
  function ParseChunks(b: Bytes, n: nat): Result<(seq<ChunkMeta>, Bytes)> {
    if n == 0 then Ok(([], b))
    else if |b| < CHUNK_LEN then Err(UnexpectedEof)
    else
      var (cs, rest) :- ParseChunks(b[CHUNK_LEN..], n - 1);
      Ok(([ParseChunk(b)] + cs, rest))
  }

  function ParseFile(b: Bytes): Result<(FileEntry, Bytes)> {
    if |b| < 2 || |b| < 2 + FromLE16(b[..2]) then Err(UnexpectedEof)
    else
      var k := 2 + FromLE16(b[..2]);
      if !ValidUtf8(b[2..k]) then Err(NotUtf8)
      else if |b| < k + CHUNK_LEN then Err(UnexpectedEof)
      else
        var (chunks, rest) :- ParseChunks(b[k + CHUNK_LEN..], FromLE32(b[k + HASH_LEN..k + CHUNK_LEN]));
        Ok((FileEntry(b[2..k], b[k..k + HASH_LEN], chunks), rest))
  }

  function ParseFiles(b: Bytes, n: nat): Result<(seq<FileEntry>, Bytes)>
    decreases n
  {
    if n == 0 then Ok(([], b))
    else
      var (f, b1) :- ParseFile(b);
      var (fs, b2) :- ParseFiles(b1, n - 1);
      Ok(([f] + fs, b2))
  }

  /** The whole input before the trailing hash: format version, flags and files. */
  function ParseBody(body: Bytes): Result<(U16, U16, seq<FileEntry>)>
    requires |body| >= HEADER_LEN
  {
    if body[..5] != MAGIC then Err(BadMagic)
    else
      var (files, rest) :- ParseFiles(body[HEADER_LEN..], FromLE32(body[9..HEADER_LEN]));
      if rest != [] then Err(TrailingData)
      else Ok((FromLE16(body[5..7]), FromLE16(body[7..9]), files))
  }

  function Decode(digest: Digest, bytes: Bytes): Result<GameIndex> {
    if |bytes| < HEADER_LEN + HASH_LEN then Err(TooShort)
    else
      var cut := |bytes| - HASH_LEN;
      var (version, _, files) :- ParseBody(bytes[..cut]);
      if digest(bytes[..cut]) != bytes[cut..] then Err(HashMismatch)
      else Ok(GameIndex(version, files, bytes[cut..]))
  }

  // ---------- the decoder as the program runs it: one cursor, two nested counted loops ----------

  function Prepend<T>(front: seq<T>, r: Result<(seq<T>, Bytes)>): Result<(seq<T>, Bytes)> {
    match r
    case Ok((xs, rest)) => Ok((front + xs, rest))
    case Err(e) => Err(e)
  }

  lemma PrependNothing<T>(r: Result<(seq<T>, Bytes)>)
    ensures Prepend([], r) == r
  {
    if r.Ok? {
      assert [] + r.value.0 == r.value.0;
    }
  }

  lemma PrependPrepend<T>(a: seq<T>, b: seq<T>, r: Result<(seq<T>, Bytes)>)
    ensures Prepend(a, Prepend(b, r)) == Prepend(a + b, r)
  {
    if r.Ok? {
      assert a + (b + r.value.0) == (a + b) + r.value.0;
    }
  }

  /** A cursor read: `n` bytes at `pos`, or the end of the input. */
  method ReadExact(body: Bytes, pos: nat, n: nat) returns (ok: bool, data: Bytes, next: nat)
    requires pos <= |body|
    ensures ok <==> n <= |body[pos..]|
    ensures ok ==> next == pos + n && data == body[pos..][..n]
    ensures !ok ==> next == |body|
  {
    if |body| - pos < n {
      return false, [], |body|;
    }
    return true, body[pos..pos + n], pos + n;
  }

  method ReadChunks(body: Bytes, start: nat, count: nat) returns (r: Result<seq<ChunkMeta>>, pos: nat)
    requires start <= |body|
    ensures pos <= |body|
    ensures match r
            case Ok(cs) => ParseChunks(body[start..], count) == Ok((cs, body[pos..]))
            case Err(e) => ParseChunks(body[start..], count) == Err(e)
  {
    hide FromLE32;
    pos := start;
    var chunks: seq<ChunkMeta> := [];
    PrependNothing(ParseChunks(body[start..], count));
    for i := 0 to count
      invariant pos <= |body|
      invariant ParseChunks(body[start..], count) == Prepend(chunks, ParseChunks(body[pos..], count - i))
    {
      ghost var b := body[pos..];
      var ok, hash, next := ReadExact(body, pos, HASH_LEN);
      if !ok { return Err(UnexpectedEof), next; }
      var word, after;
      ok, word, after := ReadExact(body, next, 4);
      if !ok { return Err(UnexpectedEof), after; }
      assert word == b[HASH_LEN..CHUNK_LEN] && body[after..] == b[CHUNK_LEN..];
      var c := ChunkMeta(hash, FromLE32(word));
      PrependPrepend(chunks, [c], ParseChunks(body[after..], count - i - 1));
      chunks, pos := chunks + [c], after;
    }
    assert chunks + [] == chunks;
    r := Ok(chunks);
  }

  method ReadFile(body: Bytes, start: nat) returns (r: Result<FileEntry>, pos: nat)
    requires start <= |body|
    ensures pos <= |body|
    ensures match r
            case Ok(f) => ParseFile(body[start..]) == Ok((f, body[pos..]))
            case Err(e) => ParseFile(body[start..]) == Err(e)
  {
    hide FromLE16;
    hide FromLE32;
    hide ValidUtf8;
    hide ParseChunks;
    ghost var b := body[start..];
    var ok, word;
    ok, word, pos := ReadExact(body, start, 2);
    if !ok { return Err(UnexpectedEof), pos; }
    var name, next;
    ok, name, next := ReadExact(body, pos, FromLE16(word));
    if !ok { return Err(UnexpectedEof), next; }
    ghost var k := 2 + FromLE16(word);
    assert name == b[2..k] && next == start + k;
    if !ValidUtf8(name) { return Err(NotUtf8), next; }
    var fileHash;
    ok, fileHash, pos := ReadExact(body, next, HASH_LEN);
    if !ok { return Err(UnexpectedEof), pos; }
    ok, word, next := ReadExact(body, pos, 4);
    if !ok { return Err(UnexpectedEof), next; }
    assert fileHash == b[k..k + HASH_LEN] && word == b[k + HASH_LEN..k + CHUNK_LEN];
    assert body[next..] == b[k + CHUNK_LEN..];
    var chunks;
    chunks, pos := ReadChunks(body, next, FromLE32(word));
    if chunks.Err? { return Err(chunks.error), pos; }
    r := Ok(FileEntry(name, fileHash, chunks.value));
  }

  method ReadFiles(body: Bytes, start: nat, count: nat) returns (r: Result<seq<FileEntry>>, pos: nat)
    requires start <= |body|
    ensures pos <= |body|
    ensures match r
            case Ok(fs) => ParseFiles(body[start..], count) == Ok((fs, body[pos..]))
            case Err(e) => ParseFiles(body[start..], count) == Err(e)
  {
    hide ParseFile;
    pos := start;
    var files: seq<FileEntry> := [];
    PrependNothing(ParseFiles(body[start..], count));
    for i := 0 to count
      invariant pos <= |body|
      invariant ParseFiles(body[start..], count) == Prepend(files, ParseFiles(body[pos..], count - i))
    {
      var f, next := ReadFile(body, pos);
      if f.Err? { return Err(f.error), pos; }
      PrependPrepend(files, [f.value], ParseFiles(body[next..], count - i - 1));
      files, pos := files + [f.value], next;
    }
    assert files + [] == files;
    r := Ok(files);
  }

  method ReadBody(body: Bytes) returns (r: Result<(U16, U16, seq<FileEntry>)>)
    requires |body| >= HEADER_LEN
    ensures r == ParseBody(body)
  {
    hide FromLE16;
    hide FromLE32;
    hide ParseFiles;
    assert body[0..] == body;
    var ok, magic, pos := ReadExact(body, 0, |MAGIC|);
    if magic != MAGIC { return Err(BadMagic); }
    var version, flags, count;
    ok, version, pos := ReadExact(body, pos, 2);
    ok, flags, pos := ReadExact(body, pos, 2);
    ok, count, pos := ReadExact(body, pos, 4);
    assert version == body[5..7] && flags == body[7..9] && count == body[9..HEADER_LEN];
    var files;
    files, pos := ReadFiles(body, pos, FromLE32(count));
    if files.Err? { return Err(files.error); }
    if pos != |body| { return Err(TrailingData); }
    r := Ok((FromLE16(version), FromLE16(flags), files.value));
  }

  method DecodeManifest(digest: Digest, bytes: Bytes) returns (r: Result<GameIndex>)
    ensures r == Decode(digest, bytes)
  {
    hide ParseBody;
    if |bytes| < |MAGIC| + 2 + 2 + 4 + HASH_LEN {
      return Err(TooShort);
    }
    var body, tail := bytes[..|bytes| - HASH_LEN], bytes[|bytes| - HASH_LEN..];
    var parsed := ReadBody(body);
    if parsed.Err? { return Err(parsed.error); }
    if digest(body) != tail { return Err(HashMismatch); }
    r := Ok(GameIndex(parsed.value.0, parsed.value.2, tail));
  }
}
