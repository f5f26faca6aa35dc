/** `append_chunks_batch` as a function of its input, and when it equals appending one block at a time. */
module PackBatch {
  import opened Common
  import opened PackStore

  /** Block `i` is the first of its hash in the batch and its hash is not indexed yet. */
  predicate IsNew(index: Index, chunks: seq<Block>, i: nat)
    requires i < |chunks|
  {
    chunks[i].hash !in index && forall j :: 0 <= j < i ==> chunks[j].hash != chunks[i].hash
  }

  /** The store after the first `i` blocks of the batch were written; the append position moves by the length word. */
  function BatchPack(p: Pack, chunks: seq<Block>, i: nat): Pack
    requires i <= |chunks|
  {
    if i == 0 then p
    else
      var q := BatchPack(p, chunks, i - 1);
      if IsNew(p.index, chunks, i - 1) then Place(q, chunks[i - 1]) else q
  }

  function Place(q: Pack, c: Block): Pack {
    Pack(WriteAt(q.bytes, c.data, q.size), q.size + Len32(c.data), q.index[c.hash := PackLoc(q.size, Len32(c.data))])
  }

  /** The first block of the batch that carries the hash of block `i`. */
  function First(chunks: seq<Block>, i: nat): (f: nat)
    requires i < |chunks|
    ensures f <= i && chunks[f].hash == chunks[i].hash
    ensures forall j :: 0 <= j < f ==> chunks[j].hash != chunks[i].hash
  {
    FirstFrom(chunks, chunks[i].hash, 0, i)
  }

  function FirstFrom(chunks: seq<Block>, hash: Hash, k: nat, i: nat): (f: nat)
    requires k <= i < |chunks| && chunks[i].hash == hash
    requires forall j :: 0 <= j < k ==> chunks[j].hash != hash
    ensures k <= f <= i && chunks[f].hash == hash
    ensures forall j :: 0 <= j < f ==> chunks[j].hash != hash
    decreases i - k
  {
    if chunks[k].hash == hash then k else FirstFrom(chunks, hash, k + 1, i)
  }

  /** The location reported for block `i`: the indexed one, or where the first block of its hash was written. */
  function BatchOut(p: Pack, chunks: seq<Block>, i: nat): (nat, nat)
    requires i < |chunks|
  {
    if chunks[i].hash in p.index then Unpack(p.index[chunks[i].hash])
    else NewOut(p, chunks, First(chunks, i))
  }

  function NewOut(p: Pack, chunks: seq<Block>, f: nat): (nat, nat)
    requires f < |chunks|
  {
    (BatchPack(p, chunks, f).size, Len32(chunks[f].data))
  }

  // ---------- appending one at a time ----------

  function FoldPack(p: Pack, chunks: seq<Block>, i: nat): Pack
    requires i <= |chunks|
  {
    if i == 0 then p else AppendChunk(FoldPack(p, chunks, i - 1), chunks[i - 1].hash, chunks[i - 1].data).0
  }

  function FoldOut(p: Pack, chunks: seq<Block>, i: nat): (nat, nat)
    requires i < |chunks|
  {
    AppendChunk(FoldPack(p, chunks, i), chunks[i].hash, chunks[i].data).1
  }

  // ---------- which blocks are indexed at each point ----------

  lemma {:induction false} BatchKeys(p: Pack, chunks: seq<Block>, i: nat, hash: Hash)
    requires i <= |chunks|
    ensures hash in BatchPack(p, chunks, i).index
       <==> hash in p.index || exists j :: 0 <= j < i && chunks[j].hash == hash
  {
    if i > 0 {
      BatchKeys(p, chunks, i - 1, hash);
      if hash in p.index || exists j :: 0 <= j < i && chunks[j].hash == hash {
        if hash !in p.index && hash == chunks[i - 1].hash && !IsNew(p.index, chunks, i - 1) {
          var j :| 0 <= j < i - 1 && chunks[j].hash == hash;
        }
      }
    }
  }

  lemma {:induction false} FoldKeys(p: Pack, chunks: seq<Block>, i: nat, hash: Hash)
    requires i <= |chunks|
    ensures hash in FoldPack(p, chunks, i).index
       <==> hash in p.index || exists j :: 0 <= j < i && chunks[j].hash == hash
  {
    if i > 0 {
      FoldKeys(p, chunks, i - 1, hash);
    }
  }

  /** A fold step adds its block exactly when the batch places it. */
  lemma FoldStep(p: Pack, chunks: seq<Block>, i: nat)
    requires i < |chunks|
    ensures chunks[i].hash in FoldPack(p, chunks, i).index <==> !IsNew(p.index, chunks, i)
  {
    FoldKeys(p, chunks, i, chunks[i].hash);
  }

  /** Once block `f` was placed its index entry stays. */
  lemma {:induction false} PlacedEntry(p: Pack, chunks: seq<Block>, f: nat, i: nat)
    requires f < i <= |chunks| && IsNew(p.index, chunks, f)
    ensures chunks[f].hash in BatchPack(p, chunks, i).index
    ensures BatchPack(p, chunks, i).index[chunks[f].hash]
         == PackLoc(BatchPack(p, chunks, f).size, Len32(chunks[f].data))
  {
    if i > f + 1 {
      PlacedEntry(p, chunks, f, i - 1);
    }
  }

  /** Indexed hashes keep their entry through the whole batch. */
  lemma {:induction false} OldEntry(p: Pack, chunks: seq<Block>, i: nat, hash: Hash)
    requires i <= |chunks| && hash in p.index
    ensures hash in BatchPack(p, chunks, i).index && BatchPack(p, chunks, i).index[hash] == p.index[hash]
  {
    if i > 0 {
      OldEntry(p, chunks, i - 1, hash);
    }
  }

  // ---------- when both agree ----------

  /** No placed block is 2^32 bytes or longer. */
  ghost predicate LensFit(p: Pack, chunks: seq<Block>, i: nat)
    requires i <= |chunks|
  {
    forall j :: 0 <= j < i && IsNew(p.index, chunks, j) ==> |chunks[j].data| < TWO32
  }

  /** A repeated new block was first placed below 2^32. */
  ghost predicate RepeatsFit(p: Pack, chunks: seq<Block>)
  {
    forall i :: 0 <= i < |chunks| && chunks[i].hash !in p.index && !IsNew(p.index, chunks, i)
      ==> BatchPack(p, chunks, First(chunks, i)).size < TWO32
  }

  lemma {:induction false} BatchEqualsFold(p: Pack, chunks: seq<Block>, i: nat)
    requires i <= |chunks| && LensFit(p, chunks, i)
    ensures BatchPack(p, chunks, i) == FoldPack(p, chunks, i)
  {
    hide WriteAt;
    hide PackLoc;
    hide Unpack;
    if i > 0 {
      BatchEqualsFold(p, chunks, i - 1);
      FoldStep(p, chunks, i - 1);
    }
  }

  lemma {:induction false} SizesDiffer(p: Pack, chunks: seq<Block>, i: nat)
    requires i <= |chunks|
    ensures BatchPack(p, chunks, i).size <= FoldPack(p, chunks, i).size
    ensures !LensFit(p, chunks, i) ==> BatchPack(p, chunks, i).size < FoldPack(p, chunks, i).size
  {
    hide *;
    if i > 0 {
      SizesDiffer(p, chunks, i - 1);
      SizeStep(p, chunks, i - 1);
      LensFitStep(p, chunks, i - 1);
      LenBounds(chunks[i - 1].data);
    } else {
      SizesStart(p, chunks);
    }
  }

  lemma SizesStart(p: Pack, chunks: seq<Block>)
    ensures BatchPack(p, chunks, 0) == FoldPack(p, chunks, 0) && LensFit(p, chunks, 0)
  {
  }

  lemma SizeStep(p: Pack, chunks: seq<Block>, i: nat)
    requires i < |chunks|
    ensures var placed := IsNew(p.index, chunks, i);
            BatchPack(p, chunks, i + 1).size
                 == BatchPack(p, chunks, i).size + (if placed then Len32(chunks[i].data) else 0) &&
            FoldPack(p, chunks, i + 1).size == FoldPack(p, chunks, i).size + (if placed then |chunks[i].data| else 0)
  {
    hide WriteAt;
    hide PackLoc;
    hide Unpack;
    hide IsNew;
    hide Len32;
    FoldStep(p, chunks, i);
  }

  lemma LensFitStep(p: Pack, chunks: seq<Block>, i: nat)
    requires i < |chunks|
    ensures LensFit(p, chunks, i + 1)
         <==> LensFit(p, chunks, i) && (IsNew(p.index, chunks, i) ==> |chunks[i].data| < TWO32)
  {
    hide IsNew;
  }

  lemma LenBounds(data: Bytes)
    ensures Len32(data) <= |data| && (|data| >= TWO32 ==> Len32(data) < |data|)
  {
  }

  lemma OutsAgree(p: Pack, chunks: seq<Block>, i: nat)
    requires i < |chunks| && LensFit(p, chunks, |chunks|)
    ensures BatchOut(p, chunks, i) == FoldOut(p, chunks, i)
       <==> (chunks[i].hash !in p.index && !IsNew(p.index, chunks, i)
             ==> BatchPack(p, chunks, First(chunks, i)).size < TWO32)
  {
    hide *;
    assert LensFit(p, chunks, i) by { LensFitPrefix(p, chunks, i); }
    BatchEqualsFold(p, chunks, i);
    NewIsFirst(p.index, chunks, i);
    if chunks[i].hash in p.index {
      IndexedOut(p, chunks, i);
    } else if IsNew(p.index, chunks, i) {
      NewBlockOut(p, chunks, i);
    } else {
      RepeatOut(p, chunks, i);
    }
  }

  lemma LensFitPrefix(p: Pack, chunks: seq<Block>, i: nat)
    requires i <= |chunks| && LensFit(p, chunks, |chunks|)
    ensures LensFit(p, chunks, i)
  {
  }

  lemma IndexedOut(p: Pack, chunks: seq<Block>, i: nat)
    requires i < |chunks| && chunks[i].hash in p.index
    requires BatchPack(p, chunks, i) == FoldPack(p, chunks, i)
    ensures BatchOut(p, chunks, i) == FoldOut(p, chunks, i)
  {
    hide BatchPack;
    hide Unpack;
    OldEntry(p, chunks, i, chunks[i].hash);
  }

  lemma NewBlockOut(p: Pack, chunks: seq<Block>, i: nat)
    requires i < |chunks| && IsNew(p.index, chunks, i)
    requires BatchPack(p, chunks, i) == FoldPack(p, chunks, i)
    ensures BatchOut(p, chunks, i) == FoldOut(p, chunks, i)
  {
    hide BatchPack;
    hide FoldPack;
    FoldStep(p, chunks, i);
    NewIsFirst(p.index, chunks, i);
  }

  lemma RepeatOut(p: Pack, chunks: seq<Block>, i: nat)
    requires i < |chunks| && chunks[i].hash !in p.index && !IsNew(p.index, chunks, i)
    requires BatchPack(p, chunks, i) == FoldPack(p, chunks, i)
    ensures BatchOut(p, chunks, i) == FoldOut(p, chunks, i) <==> BatchPack(p, chunks, First(chunks, i)).size < TWO32
  {
    hide BatchPack;
    hide FoldPack;
    hide PackLoc;
    hide Unpack;
    NewIsFirst(p.index, chunks, i);
    var f := First(chunks, i);
    PlacedEntry(p, chunks, f, i);
    UnpackPack(BatchPack(p, chunks, f).size, Len32(chunks[f].data));
  }

  lemma NewIsFirst(index: Index, chunks: seq<Block>, i: nat)
    requires i < |chunks|
    ensures IsNew(index, chunks, i) <==> chunks[i].hash !in index && First(chunks, i) == i
    ensures chunks[i].hash !in index ==> IsNew(index, chunks, First(chunks, i))
  {
  }

  /**
   * Writing a batch and appending its blocks one at a time leave the same file, size and index and report the
   * same locations, for every batch with or without repeats, exactly when every placed block is shorter than
   * 2^32 bytes and every repeated one starts below 2^32.
   */
  lemma BatchRefinesFold(p: Pack, chunks: seq<Block>)
    ensures BatchPack(p, chunks, |chunks|) == FoldPack(p, chunks, |chunks|) &&
            (forall i :: 0 <= i < |chunks| ==> BatchOut(p, chunks, i) == FoldOut(p, chunks, i))
       <==> LensFit(p, chunks, |chunks|) && RepeatsFit(p, chunks)
  {
    SizesDiffer(p, chunks, |chunks|);
    if LensFit(p, chunks, |chunks|) {
      BatchEqualsFold(p, chunks, |chunks|);
      forall i | 0 <= i < |chunks|
        ensures BatchOut(p, chunks, i) == FoldOut(p, chunks, i)
           <==> (chunks[i].hash !in p.index && !IsNew(p.index, chunks, i)
                 ==> BatchPack(p, chunks, First(chunks, i)).size < TWO32)
      {
        OutsAgree(p, chunks, i);
      }
    }
  }

  // ---------- the map a batch represents ----------

  function PutAll(m: map<Hash, Bytes>, chunks: seq<Block>): map<Hash, Bytes>
    decreases |chunks|
  {
    if chunks == [] then m
    else
      var last := |chunks| - 1;
      Put(PutAll(m, chunks[..last]), chunks[last].hash, chunks[last].data)
  }

  /** Every placed block keeps its location through packing. */
  ghost predicate BatchPackable(p: Pack, chunks: seq<Block>) {
    forall i :: 0 <= i < |chunks| && IsNew(p.index, chunks, i) ==> Packable(BatchPack(p, chunks, i), chunks[i].data)
  }

  lemma BatchStepRefines(p: Pack, chunks: seq<Block>, i: nat)
    requires i < |chunks| && Inv(BatchPack(p, chunks, i))
    requires IsNew(p.index, chunks, i) ==> Packable(BatchPack(p, chunks, i), chunks[i].data)
    ensures Inv(BatchPack(p, chunks, i + 1))
    ensures View(BatchPack(p, chunks, i + 1)) == Put(View(BatchPack(p, chunks, i)), chunks[i].hash, chunks[i].data)
  {
    hide Inv;
    hide View;
    hide PackLoc;
    hide Unpack;
    hide WriteAt;
    var q, c := BatchPack(p, chunks, i), chunks[i];
    BatchKeys(p, chunks, i, c.hash);
    AppendRefinesPut(q, c.hash, c.data);
    assert BatchPack(p, chunks, i + 1) == AppendChunk(q, c.hash, c.data).0;
  }

  lemma {:induction false} BatchPrefixRefines(p: Pack, chunks: seq<Block>, i: nat)
    requires i <= |chunks| && Inv(p) && BatchPackable(p, chunks)
    ensures Inv(BatchPack(p, chunks, i)) && View(BatchPack(p, chunks, i)) == PutAll(View(p), chunks[..i])
  {
    hide Inv;
    hide View;
    hide Packable;
    assert chunks[..0] == [];
    if i > 0 {
      BatchPrefixRefines(p, chunks, i - 1);
      assert chunks[..i][..i - 1] == chunks[..i - 1];
      BatchStepRefines(p, chunks, i - 1);
    }
  }

  /** A batch adds to the represented map exactly its blocks, the first of each new hash winning. */
  lemma BatchRefinesPutAll(p: Pack, chunks: seq<Block>)
    requires Inv(p) && BatchPackable(p, chunks)
    ensures Inv(BatchPack(p, chunks, |chunks|))
    ensures View(BatchPack(p, chunks, |chunks|)) == PutAll(View(p), chunks)
  {
    BatchPrefixRefines(p, chunks, |chunks|);
    assert chunks[..|chunks|] == chunks;
  }

  function BlockHashes(blocks: seq<Block>): set<Hash> {
    set b | b in blocks :: b.hash
  }

  lemma BlockHashesSnoc(blocks: seq<Block>, b: Block)
    ensures BlockHashes(blocks + [b]) == BlockHashes(blocks) + {b.hash}
  {
  }

  lemma {:induction false} PutAllGenuine(digest: Digest, m: map<Hash, Bytes>, blocks: seq<Block>)
    requires forall h :: h in m ==> digest(m[h]) == h
    requires forall b :: b in blocks ==> digest(b.data) == b.hash
    ensures forall h :: h in PutAll(m, blocks) ==> digest(PutAll(m, blocks)[h]) == h
    decreases |blocks|
  {
    if blocks != [] {
      var last := |blocks| - 1;
      assert blocks[last] in blocks;
      PutAllGenuine(digest, m, blocks[..last]);
    }
  }
}
