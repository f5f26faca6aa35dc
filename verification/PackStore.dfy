/** The per-game block store: one append-only byte file and an index from block hash to a packed location. */
module PackStore {
  import opened Common

  const TWO64 := 0x1_0000_0000_0000_0000

  type Index = map<Hash, nat>

  /** `bytes` is the file on disk, `size` the append position held in memory. */
  datatype Pack = Pack(bytes: Bytes, size: nat, index: Index)

  datatype ReadResult = Missing | Data(bytes: Bytes) | UnexpectedEof

  // ---------- packed locations ----------

  /** `(offset << 32) | len` on 64-bit words: the shift drops every offset bit from 2^32 up. */
  function PackLoc(offset: nat, len: nat): nat
    requires len < TWO32
  {
    (offset * TWO32) % TWO64 + len
  }

  function Unpack(value: nat): (nat, nat) {
    (value / TWO32, value % TWO32)
  }

  lemma UnpackPack(offset: nat, len: nat)
    requires len < TWO32
    ensures Unpack(PackLoc(offset, len)) == (offset % TWO32, len)
  {
    var k := offset / TWO32;
    assert offset * TWO32 == k * TWO64 + (offset % TWO32) * TWO32;
    ModSplit(k, (offset % TWO32) * TWO32);
  }

  lemma ModSplit(k: nat, r: nat)
    requires r < TWO64
    ensures (k * TWO64 + r) % TWO64 == r
  {
  }

  /** The length word of an appended block: `data.len() as u32`. */
  function Len32(data: Bytes): (n: nat)
    ensures n < TWO32
  {
    |data| % TWO32
  }

  // ---------- the file ----------

  /** A positioned write; a write past the end leaves a hole of zeros, an empty one touches nothing. */
  function WriteAt(file: Bytes, data: Bytes, offset: nat): Bytes {
    if data == [] then file
    else
      var padded := if offset <= |file| then file else file + seq(offset - |file|, _ => 0);
      padded[..offset] + data + (if offset + |data| <= |file| then file[offset + |data|..] else [])
  }

  // ---------- operations ----------

  function AppendChunk(p: Pack, hash: Hash, data: Bytes): (Pack, (nat, nat)) {
    if hash in p.index then (p, Unpack(p.index[hash]))
    else
      var len := Len32(data);
      (Pack(WriteAt(p.bytes, data, p.size), p.size + |data|, p.index[hash := PackLoc(p.size, len)]), (p.size, len))
  }

  function ReadChunk(p: Pack, hash: Hash): ReadResult {
    if hash !in p.index then Missing
    else
      var (offset, len) := Unpack(p.index[hash]);
      match ReadAt(p.bytes, offset, len)
      case Some(data) => Data(data)
      case None => UnexpectedEof
  }

  /** Opening the store takes the append position from the file length. */
  function Reopen(bytes: Bytes, index: Index): Pack {
    Pack(bytes, |bytes|, index)
  }

  // ---------- the representation invariant and the map it represents ----------

  ghost predicate InBounds(index: Index, size: nat) {
    forall h :: h in index ==> Unpack(index[h]).0 + Unpack(index[h]).1 <= size
  }

  ghost predicate Disjoint(index: Index) {
    forall g, h :: g in index && h in index && g != h ==> Apart(Unpack(index[g]), Unpack(index[h]))
  }

  ghost predicate Apart(a: (nat, nat), b: (nat, nat)) {
    a.1 == 0 || b.1 == 0 || a.0 + a.1 <= b.0 || b.0 + b.1 <= a.0
  }

  ghost predicate Inv(p: Pack) {
    p.size <= |p.bytes| && InBounds(p.index, p.size) && Disjoint(p.index)
  }

  ghost function View(p: Pack): map<Hash, Bytes>
    requires Inv(p)
  {
    map h | h in p.index :: Slice(p, h)
  }

  /** The store is sound and every block in it hashes to its key. */
  ghost predicate Intact(digest: Digest, p: Pack) {
    Inv(p) && forall h :: h in View(p) ==> digest(View(p)[h]) == h
  }

  function Slice(p: Pack, hash: Hash): Bytes
    requires p.size <= |p.bytes| && hash in p.index
    requires Unpack(p.index[hash]).0 + Unpack(p.index[hash]).1 <= p.size
  {
    var (offset, len) := Unpack(p.index[hash]);
    p.bytes[offset..offset + len]
  }

  /** Adding a block to a content-addressed map: the first bytes stored under a hash stay. */
  function Put(m: map<Hash, Bytes>, hash: Hash, data: Bytes): map<Hash, Bytes> {
    if hash in m then m else m[hash := data]
  }

  lemma ReadIsView(p: Pack, hash: Hash)
    requires Inv(p)
    ensures ReadChunk(p, hash) == if hash in View(p) then Data(View(p)[hash]) else Missing
  {
  }

  /** The location of `data`, appended next, survives packing. */
  ghost predicate Packable(p: Pack, data: Bytes) {
    |data| < TWO32 && (data == [] || p.size < TWO32)
  }

  lemma WriteAtEnd(file: Bytes, data: Bytes, offset: nat)
    requires offset <= |file|
    ensures offset + |data| <= |WriteAt(file, data, offset)|
    ensures WriteAt(file, data, offset)[..offset] == file[..offset]
    ensures WriteAt(file, data, offset)[offset..offset + |data|] == data
  {
  }

  lemma SliceOfPrefix(a: Bytes, b: Bytes, size: nat, offset: nat, len: nat)
    requires size <= |a| && size <= |b| && a[..size] == b[..size] && offset + len <= size
    ensures a[offset..offset + len] == b[offset..offset + len]
  {
    assert a[offset..offset + len] == a[..size][offset..offset + len];
    assert b[offset..offset + len] == b[..size][offset..offset + len];
  }

  /** Bytes from the append position on do not matter: what a torn write leaves there is invisible. */
  lemma TailIrrelevant(p: Pack, q: Pack)
    requires Inv(p)
    requires q.index == p.index && p.size <= q.size <= |q.bytes| && q.bytes[..p.size] == p.bytes[..p.size]
    ensures Inv(q) && View(q) == View(p)
  {
    hide Unpack;
    forall h | h in p.index
      ensures Slice(q, h) == Slice(p, h)
    {
      var (offset, len) := Unpack(p.index[h]);
      SliceOfPrefix(p.bytes, q.bytes, p.size, offset, len);
    }
  }

  /** Appending keeps the invariant and adds exactly its block to the map, dedup included. */
  lemma AppendRefinesPut(p: Pack, hash: Hash, data: Bytes)
    requires Inv(p) && (hash in p.index || Packable(p, data))
    ensures Inv(AppendChunk(p, hash, data).0)
    ensures View(AppendChunk(p, hash, data).0) == Put(View(p), hash, data)
  {
    if hash in p.index {
      hide Disjoint;
      hide InBounds;
    } else {
      hide *;
      var q := AppendChunk(p, hash, data).0;
      AppendFields(p, hash, data);
      AppendInv(p, hash, data);
      TailIrrelevant(p, q.(index := p.index));
      AppendedSlice(p, hash, data);
      AddView(p, q, hash, data);
      PutNew(p, hash, data);
    }
  }

  lemma AppendFields(p: Pack, hash: Hash, data: Bytes)
    requires p.size <= |p.bytes| && hash !in p.index
    ensures var q := AppendChunk(p, hash, data).0;
            q.size == p.size + |data| <= |q.bytes| && q.bytes[..p.size] == p.bytes[..p.size] &&
            q.index == p.index[hash := PackLoc(p.size, Len32(data))]
  {
    hide WriteAt;
    hide PackLoc;
    hide Unpack;
    WriteAtEnd(p.bytes, data, p.size);
  }

  lemma AppendInv(p: Pack, hash: Hash, data: Bytes)
    requires Inv(p) && hash !in p.index && Packable(p, data)
    ensures Inv(AppendChunk(p, hash, data).0)
  {
    hide Disjoint;
    hide InBounds;
    hide AppendChunk;
    AppendFields(p, hash, data);
    AddLocation(p.index, hash, p.size, data);
  }

  lemma PutNew(p: Pack, hash: Hash, data: Bytes)
    requires Inv(p) && hash !in p.index
    ensures Put(View(p), hash, data) == View(p)[hash := data]
  {
    hide Slice;
    hide Inv;
  }

  lemma AppendedSlice(p: Pack, hash: Hash, data: Bytes)
    requires p.size <= |p.bytes| && hash !in p.index && Packable(p, data)
    ensures var q := AppendChunk(p, hash, data).0;
            Unpack(q.index[hash]).0 + Unpack(q.index[hash]).1 <= q.size <= |q.bytes| && Slice(q, hash) == data
  {
    hide Unpack;
    hide PackLoc;
    hide WriteAt;
    WriteAtEnd(p.bytes, data, p.size);
    UnpackPack(p.size, |data|);
  }

  lemma AddView(p: Pack, q: Pack, hash: Hash, data: Bytes)
    requires Inv(p) && Inv(q) && Inv(q.(index := p.index)) && hash !in p.index
    requires View(q.(index := p.index)) == View(p)
    requires q.index.Keys == p.index.Keys + {hash} && forall h :: h in p.index ==> q.index[h] == p.index[h]
    requires Slice(q, hash) == data
    ensures View(q) == View(p)[hash := data]
  {
    hide Unpack;
    hide Disjoint;
    forall h | h in p.index
      ensures View(q)[h] == View(p)[h]
    {
      assert View(p)[h] == View(q.(index := p.index))[h] == Slice(q.(index := p.index), h);
    }
  }

  lemma AddLocation(index: Index, hash: Hash, size: nat, data: Bytes)
    requires InBounds(index, size) && Disjoint(index) && hash !in index
    requires |data| < TWO32 && (data == [] || size < TWO32)
    ensures var index' := index[hash := PackLoc(size, |data|)];
            InBounds(index', size + |data|) && Disjoint(index')
  {
    UnpackPack(size, |data|);
    hide Unpack;
    hide PackLoc;
  }

  /** A block whose location survives packing reads back as its own bytes, whatever else the store holds. */
  lemma AppendReadsBack(p: Pack, hash: Hash, data: Bytes)
    requires p.size <= |p.bytes| && hash !in p.index && Packable(p, data)
    ensures ReadChunk(AppendChunk(p, hash, data).0, hash) == Data(data)
  {
    UnpackPack(p.size, Len32(data));
    WriteAtEnd(p.bytes, data, p.size);
    hide Unpack;
    hide PackLoc;
    hide WriteAt;
  }

  /**
   * Any other block is read from a wrong place or in a wrong length: one of 2^32 bytes or more never reads back, and
   * one appended at 2^32 or behind is answered with the bytes 2^32 or a multiple of it earlier.
   */
  lemma UnpackableReadsElsewhere(p: Pack, hash: Hash, data: Bytes)
    requires p.size <= |p.bytes| && hash !in p.index && !Packable(p, data)
    ensures |data| >= TWO32 ==> ReadChunk(AppendChunk(p, hash, data).0, hash) != Data(data)
    ensures |data| < TWO32 ==>
      var file, at := WriteAt(p.bytes, data, p.size), p.size % TWO32;
      at + |data| <= |file| && at < p.size &&
        ReadChunk(AppendChunk(p, hash, data).0, hash) == Data(file[at..at + |data|])
  {
    UnpackPack(p.size, Len32(data));
    WriteAtEnd(p.bytes, data, p.size);
    hide Unpack;
    hide PackLoc;
    hide WriteAt;
  }

  /** Past 2^32 bytes a block can read back wrong: here the first byte of the file answers for it. */
  lemma OffsetTruncationLosesData(p: Pack, hash: Hash)
    requires p.size == TWO32 <= |p.bytes| && p.bytes[0] == 0 && hash !in p.index
    ensures ReadChunk(AppendChunk(p, hash, [1]).0, hash) == Data([0])
  {
    UnpackPack(p.size, 1);
    WriteAtEnd(p.bytes, [1], p.size);
    assert WriteAt(p.bytes, [1], p.size)[..p.size][0] == 0;
  }

  // ---------- live bytes ----------

  function SumLens(index: Index, hashes: seq<Hash>): nat
    requires forall h :: h in hashes ==> h in index
  {
    if hashes == [] then 0 else Unpack(index[hashes[0]]).1 + SumLens(index, hashes[1..])
  }

  ghost function Positions(offset: nat, len: nat): (s: set<int>)
    ensures forall i :: i in s <==> offset <= i < offset + len
    ensures |s| == len
  {
    if len == 0 then {} else Positions(offset, len - 1) + {offset + len - 1}
  }

  ghost function Cover(index: Index, hashes: seq<Hash>): set<int>
    requires forall h :: h in hashes ==> h in index
  {
    if hashes == [] then {}
    else var (offset, len) := Unpack(index[hashes[0]]); Positions(offset, len) + Cover(index, hashes[1..])
  }

  lemma {:induction false} CoverMember(index: Index, hashes: seq<Hash>, i: int)
    requires forall h :: h in hashes ==> h in index
    ensures i in Cover(index, hashes)
       <==> exists h :: h in hashes && i in Positions(Unpack(index[h]).0, Unpack(index[h]).1)
  {
    hide Unpack;
    hide Positions;
    if hashes != [] {
      CoverMember(index, hashes[1..], i);
      assert forall h :: h in hashes <==> h == hashes[0] || h in hashes[1..];
      hide Cover;
    }
  }

  lemma {:induction false} SumIsCover(index: Index, hashes: seq<Hash>)
    requires forall h :: h in hashes ==> h in index
    requires Disjoint(index) && Distinct(hashes)
    ensures SumLens(index, hashes) == |Cover(index, hashes)|
  {
    if hashes != [] {
      var (offset, len) := Unpack(index[hashes[0]]);
      SumIsCover(index, hashes[1..]);
      forall i | i in Positions(offset, len)
        ensures i !in Cover(index, hashes[1..])
      {
        CoverMember(index, hashes[1..], i);
      }
      assert Positions(offset, len) !! Cover(index, hashes[1..]);
    }
  }

  lemma {:induction false} SumWithout(index: Index, hashes: seq<Hash>, i: nat)
    requires i < |hashes| && forall h :: h in hashes ==> h in index
    ensures SumLens(index, hashes) == Unpack(index[hashes[i]]).1 + SumLens(index, hashes[..i] + hashes[i + 1..])
  {
    hide Unpack;
    if i == 0 {
      assert hashes[..0] + hashes[1..] == hashes[1..];
    } else {
      SumWithout(index, hashes[1..], i - 1);
      assert (hashes[..i] + hashes[i + 1..])[1..] == hashes[1..][..i - 1] + hashes[1..][i..];
    }
  }

  lemma WithoutOne<T>(b: seq<T>, i: nat)
    requires i < |b|
    ensures multiset(b[..i] + b[i + 1..]) == multiset(b) - multiset{b[i]}
    ensures forall x :: x in b[..i] + b[i + 1..] ==> x in b
  {
    var rest := b[..i] + b[i + 1..];
    assert b == b[..i] + [b[i]] + b[i + 1..];
    assert multiset(rest) == multiset(b[..i]) + multiset(b[i + 1..]);
    forall x | x in rest ensures x in b {
      var k :| 0 <= k < |rest| && rest[k] == x;
      assert b[if k < i then k else k + 1] == x;
    }
  }

  lemma RemoveFromBoth<T>(a: seq<T>, b: seq<T>, i: nat)
    requires a != [] && i < |b| && b[i] == a[0] && multiset(a) == multiset(b)
    ensures multiset(a[1..]) == multiset(b[..i] + b[i + 1..])
    ensures forall x :: x in b[..i] + b[i + 1..] ==> x in b
  {
    WithoutOne(b, i);
    WithoutOne(a, 0);
    assert a[..0] + a[1..] == a[1..];
  }

  /** The live total does not depend on the order in which the hash set was walked. */
  lemma {:induction false} SumOrderIndependent(index: Index, a: seq<Hash>, b: seq<Hash>)
    requires (forall h :: h in a ==> h in index) && forall h :: h in b ==> h in index
    requires multiset(a) == multiset(b)
    ensures SumLens(index, a) == SumLens(index, b)
    decreases |a|
  {
    hide Unpack;
    if a != [] {
      assert a[0] in multiset(b);
      var i :| 0 <= i < |b| && b[i] == a[0];
      SumWithout(index, b, i);
      RemoveFromBoth(a, b, i);
      SumOrderIndependent(index, a[1..], b[..i] + b[i + 1..]);
    }
  }

  /** Live bytes never exceed the file, so the garbage ratio lies between 0 and 1. */
  lemma LiveBytesBounded(p: Pack, hashes: seq<Hash>)
    requires Inv(p) && Distinct(hashes) && forall h :: h in hashes ==> h in p.index
    ensures SumLens(p.index, hashes) <= p.size
    ensures p.size > 0 ==> 0.0 <= 1.0 - SumLens(p.index, hashes) as real / p.size as real <= 1.0
  {
    SumIsCover(p.index, hashes);
    forall i | i in Cover(p.index, hashes)
      ensures i in Positions(0, p.size)
    {
      CoverMember(p.index, hashes, i);
    }
    SubsetSize(Cover(p.index, hashes), Positions(0, p.size));
    if p.size > 0 {
      RatioBound(SumLens(p.index, hashes), p.size);
    }
  }

  lemma RatioBound(n: nat, d: nat)
    requires n <= d && d > 0
    ensures 0.0 <= n as real / d as real <= 1.0
  {
  }

  lemma {:induction false} SubsetSize<T>(a: set<T>, b: set<T>)
    requires a <= b
    ensures |a| <= |b|
  {
    if a != {} {
      var x :| x in a;
      SubsetSize(a - {x}, b - {x});
    }
  }
}
