/** Encoding and decoding a manifest are inverse to each other, in both directions. */
module ManifestRoundTrip {
  import opened Common
  import opened Manifest

  /** Every length of the manifest fits the word that carries it. */
  ghost predicate Fits(files: seq<FileEntry>) {
    |files| < TWO32 &&
    forall i :: 0 <= i < |files| ==> FitsFile(files[i])
  }

  ghost predicate FitsFile(f: FileEntry) {
    |f.name| < 0x1_0000 && |f.chunks| < TWO32
  }

  // ---------- parsing what was encoded ----------

  lemma {:induction false} ParseEncodedChunks(cs: seq<ChunkMeta>, rest: Bytes)
    ensures ParseChunks(EncodeChunks(cs) + rest, |cs|) == Ok((cs, rest))
  {
    if cs == [] {
      assert [] + rest == rest;
    } else {
      hide FromLE32;
      hide LE32;
      var c, tail := cs[0], EncodeChunks(cs[1..]) + rest;
      var b := EncodeChunks(cs) + rest;
      assert b == c.hash + LE32(c.len) + tail;
      assert b[..HASH_LEN] == c.hash && b[HASH_LEN..CHUNK_LEN] == LE32(c.len) && b[CHUNK_LEN..] == tail;
      Words32(c.len, LE32(c.len));
      ParseEncodedChunks(cs[1..], rest);
      assert cs == [c] + cs[1..];
    }
  }

  lemma ParseEncodedFile(f: FileEntry, rest: Bytes)
    requires FitsFile(f)
    ensures ParseFile(EncodeFile(f) + rest) == Ok((f, rest))
  {
    hide FromLE16;
    hide FromLE32;
    hide LE16;
    hide LE32;
    hide ValidUtf8;
    hide EncodeChunks;
    hide ParseChunks;
    var tail := EncodeChunks(f.chunks) + rest;
    var n16, n32 := LE16(|f.name|), LE32(|f.chunks|);
    var b := EncodeFile(f) + rest;
    var k := 2 + |f.name|;
    assert b == n16 + f.name + f.fileHash + n32 + tail;
    assert b[..2] == n16 && b[2..k] == f.name;
    assert b[k..k + HASH_LEN] == f.fileHash && b[k + HASH_LEN..k + CHUNK_LEN] == n32;
    assert b[k + CHUNK_LEN..] == tail;
    Words16(|f.name|, n16);
    Words32(|f.chunks|, n32);
    ParseEncodedChunks(f.chunks, rest);
  }

  lemma {:induction false} ParseEncodedFiles(fs: seq<FileEntry>, rest: Bytes)
    requires forall i :: 0 <= i < |fs| ==> FitsFile(fs[i])
    ensures ParseFiles(EncodeFiles(fs) + rest, |fs|) == Ok((fs, rest))
  {
    hide ParseFile;
    hide EncodeFile;
    if fs == [] {
      assert [] + rest == rest;
    } else {
      var tail := EncodeFiles(fs[1..]) + rest;
      assert EncodeFiles(fs) + rest == EncodeFile(fs[0]) + tail;
      ParseEncodedFile(fs[0], tail);
      ParseEncodedFiles(fs[1..], rest);
      assert fs == [fs[0]] + fs[1..];
    }
  }

  lemma ParseEncodedBody(version: U16, flags: U16, files: seq<FileEntry>)
    requires Fits(files)
    ensures |Body(version, flags, files)| >= HEADER_LEN
    ensures ParseBody(Body(version, flags, files)) == Ok((version, flags, files))
  {
    hide FromLE16;
    hide FromLE32;
    hide LE16;
    hide LE32;
    hide EncodeFiles;
    hide ParseFiles;
    var tail := EncodeFiles(files);
    var b := Body(version, flags, files);
    var v, f, n := LE16(version), LE16(flags), LE32(|files|);
    assert b == MAGIC + v + f + n + tail;
    assert b[..5] == MAGIC && b[5..7] == v && b[7..9] == f && b[9..HEADER_LEN] == n && b[HEADER_LEN..] == tail;
    Words16(version, v);
    Words16(flags, f);
    Words32(|files|, n);
    assert tail + [] == tail;
    ParseEncodedFiles(files, []);
  }

  // ---------- encoding what was parsed ----------

  lemma {:induction false} ParsedChunks(b: Bytes, n: nat)
    requires ParseChunks(b, n).Ok?
    ensures var (cs, rest) := ParseChunks(b, n).value; |cs| == n && b == EncodeChunks(cs) + rest
  {
    if n == 0 {
      assert [] + b == b;
    } else {
      hide FromLE32;
      hide LE32;
      var c, b1 := ParseChunk(b), b[CHUNK_LEN..];
      Words32(c.len, b[HASH_LEN..CHUNK_LEN]);
      ParsedChunks(b1, n - 1);
      var (cs, rest) := ParseChunks(b1, n - 1).value;
      assert ([c] + cs)[1..] == cs;
      assert b == b[..HASH_LEN] + b[HASH_LEN..CHUNK_LEN] + b1;
      assert b == (EncodeChunk(c) + EncodeChunks(cs)) + rest;
    }
  }

  lemma ParsedFile(b: Bytes)
    requires ParseFile(b).Ok?
    ensures var (f, rest) := ParseFile(b).value; FitsFile(f) && b == EncodeFile(f) + rest
  {
    hide FromLE16;
    hide FromLE32;
    hide LE16;
    hide LE32;
    hide ValidUtf8;
    hide EncodeChunks;
    hide ParseChunks;
    var (f, rest) := ParseFile(b).value;
    var k := 2 + FromLE16(b[..2]);
    var n32 := b[k + HASH_LEN..k + CHUNK_LEN];
    Words16(0, b[..2]);
    Words32(0, n32);
    ParsedChunks(b[k + CHUNK_LEN..], FromLE32(n32));
    assert b == b[..2] + b[2..k] + b[k..k + HASH_LEN] + n32 + b[k + CHUNK_LEN..];
    assert b == b[..2] + b[2..k] + b[k..k + HASH_LEN] + n32 + EncodeChunks(f.chunks) + rest;
  }

  lemma {:induction false} ParsedFiles(b: Bytes, n: nat)
    requires ParseFiles(b, n).Ok?
    ensures var (fs, rest) := ParseFiles(b, n).value;
            |fs| == n && b == EncodeFiles(fs) + rest && forall i :: 0 <= i < |fs| ==> FitsFile(fs[i])
    decreases n
  {
    hide ParseFile;
    hide EncodeFile;
    if n == 0 {
      assert [] + b == b;
    } else {
      ParsedFile(b);
      var (f, b1) := ParseFile(b).value;
      ParsedFiles(b1, n - 1);
      var (fs, rest) := ParseFiles(b1, n - 1).value;
      assert ([f] + fs)[1..] == fs;
      assert b == (EncodeFile(f) + EncodeFiles(fs)) + rest;
    }
  }

  lemma ParsedBody(body: Bytes)
    requires |body| >= HEADER_LEN && ParseBody(body).Ok?
    ensures var (version, flags, files) := ParseBody(body).value;
            Fits(files) && body == Body(version, flags, files)
  {
    hide FromLE16;
    hide FromLE32;
    hide LE16;
    hide LE32;
    hide EncodeFiles;
    hide ParseFiles;
    Words16(0, body[5..7]);
    Words16(0, body[7..9]);
    Words32(0, body[9..HEADER_LEN]);
    ParsedFiles(body[HEADER_LEN..], FromLE32(body[9..HEADER_LEN]));
    var files := ParseBody(body).value.2;
    assert EncodeFiles(files) + [] == EncodeFiles(files);
    assert body == body[..5] + body[5..7] + body[7..9] + body[9..HEADER_LEN] + body[HEADER_LEN..];
  }

  // ---------- main results ----------

  /** The flags word of a manifest, which decoding reads and drops. */
  function Flags(bytes: Bytes): (flags: U16)
    requires |bytes| >= HEADER_LEN
  {
    FromLE16(bytes[7..9])
  }

  lemma FlagsOfBody(version: U16, flags: U16, files: seq<FileEntry>, tail: Bytes)
    ensures |Body(version, flags, files)| >= HEADER_LEN
    ensures Flags(Body(version, flags, files) + tail) == flags
  {
    hide EncodeFiles;
    var bytes := Body(version, flags, files) + tail;
    var head := MAGIC + LE16(version);
    var rest := LE32(AsU32(|files|)) + EncodeFiles(files) + tail;
    assert bytes == head + LE16(flags) + rest;
    assert bytes[7..9] == LE16(flags);
    Words16(flags, LE16(flags));
  }

  /** What an accepted manifest looks like, byte for byte. */
  lemma DecodedShape(digest: Digest, bytes: Bytes)
    requires Decode(digest, bytes).Ok?
    ensures |bytes| >= HEADER_LEN + HASH_LEN
    ensures var x := Decode(digest, bytes).value;
            Fits(x.files) &&
            bytes == Body(x.formatVersion, Flags(bytes), x.files) + x.manifestHash &&
            x.manifestHash == digest(Body(x.formatVersion, Flags(bytes), x.files))
  {
    hide ParseBody;
    hide Body;
    hide Flags;
    var cut := |bytes| - HASH_LEN;
    ParsedBody(bytes[..cut]);
    var (version, flags, files) := ParseBody(bytes[..cut]).value;
    assert bytes == bytes[..cut] + bytes[cut..];
    FlagsOfBody(version, flags, files, bytes[cut..]);
  }

  /** An index survives encoding and decoding exactly when its lengths fit and its hash is its own. */
  lemma DecodeEncode(digest: Digest, x: GameIndex)
    ensures Decode(digest, Encode(x)) == Ok(x)
       <==> Fits(x.files) && x.manifestHash == digest(Body(x.formatVersion, 0, x.files))
  {
    var body := Body(x.formatVersion, 0, x.files);
    var bytes := Encode(x);
    assert bytes[..|bytes| - HASH_LEN] == body && bytes[|bytes| - HASH_LEN..] == x.manifestHash;
    if Fits(x.files) {
      ParseEncodedBody(x.formatVersion, 0, x.files);
    }
    if Decode(digest, bytes) == Ok(x) {
      DecodedShape(digest, bytes);
    }
  }

  /** What the producer builds round-trips if and only if its lengths fit their words. */
  lemma DecodeEncodeBuilt(digest: Digest, files: seq<FileEntry>)
    ensures Decode(digest, Encode(Build(digest, files))) == Ok(Build(digest, files)) <==> Fits(files)
    ensures Fits(files) ==> var r := Decode(digest, Encode(Build(digest, files)));
                            r.Ok? && r.value.files == files && r.value.formatVersion == 1
  {
    DecodeEncode(digest, Build(digest, files));
  }

  /** Re-encoding an accepted manifest gives back the same bytes exactly when its flags word is zero. */
  lemma EncodeDecode(digest: Digest, bytes: Bytes)
    requires Decode(digest, bytes).Ok?
    ensures |bytes| >= HEADER_LEN
    ensures Encode(Decode(digest, bytes).value) == bytes <==> Flags(bytes) == 0
  {
    hide Decode;
    hide Body;
    hide Flags;
    DecodedShape(digest, bytes);
    var x := Decode(digest, bytes).value;
    FlagsOfBody(x.formatVersion, 0, x.files, x.manifestHash);
  }

  /** Two inputs accepted as the same index are the same bytes, unless the digest collides on them. */
  lemma DecodeInjective(digest: Digest, a: Bytes, b: Bytes)
    requires Decode(digest, a).Ok? && Decode(digest, a) == Decode(digest, b)
    ensures |a| == |b| >= HASH_LEN
    ensures NoCollision(digest, {a[..|a| - HASH_LEN], b[..|b| - HASH_LEN]}) ==> a == b
  {
    hide Decode;
    hide Flags;
    hide EncodeFiles;
    DecodedShape(digest, a);
    DecodedShape(digest, b);
    var x := Decode(digest, a).value;
    assert a[..|a| - HASH_LEN] == Body(x.formatVersion, Flags(a), x.files);
    assert b[..|b| - HASH_LEN] == Body(x.formatVersion, Flags(b), x.files);
  }

  /** Neither a proper prefix nor an extension of an accepted manifest is accepted as the same index. */
  lemma NoTruncationNoTrailing(digest: Digest, bytes: Bytes, extra: Bytes)
    requires extra != []
    requires Decode(digest, bytes).Ok?
    ensures Decode(digest, bytes + extra) != Decode(digest, bytes)
  {
    if Decode(digest, bytes + extra) == Decode(digest, bytes) {
      DecodeInjective(digest, bytes, bytes + extra);
    }
  }
}
