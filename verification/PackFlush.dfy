/** What flushing a buffer of verified blocks does to a store. */
module PackFlush {
  import opened Common
  import opened PackStore
  import opened PackBatch

  lemma {:induction false} SizesGrow(p: Pack, chunks: seq<Block>, i: nat, j: nat)
    requires i <= j <= |chunks|
    ensures BatchPack(p, chunks, i).size <= BatchPack(p, chunks, j).size
  {
    hide WriteAt;
    hide PackLoc;
    hide IsNew;
    if i < j {
      SizesGrow(p, chunks, i, j - 1);
    }
  }

  /** A batch that ends within 2^32 bytes was packable all along. */
  lemma SmallBatchPackable(digest: Digest, p: Pack, chunks: seq<Block>)
    requires Verified(digest, chunks) && BatchPack(p, chunks, |chunks|).size <= TWO32
    ensures BatchPackable(p, chunks)
  {
    forall i | 0 <= i < |chunks| && IsNew(p.index, chunks, i)
      ensures Packable(BatchPack(p, chunks, i), chunks[i].data)
    {
      assert chunks[i] in chunks;
      SizesGrow(p, chunks, i + 1, |chunks|);
      PlacedSize(p, chunks, i);
      Len32Exact(chunks[i].data);
      hide BatchPack;
      hide IsNew;
      hide Len32;
    }
  }

  lemma Len32Exact(data: Bytes)
    requires |data| < TWO32
    ensures Len32(data) == |data|
  {
  }

  lemma PlacedSize(p: Pack, chunks: seq<Block>, i: nat)
    requires i < |chunks| && IsNew(p.index, chunks, i)
    ensures BatchPack(p, chunks, i + 1).size == BatchPack(p, chunks, i).size + Len32(chunks[i].data)
  {
    hide WriteAt;
    hide PackLoc;
  }

  lemma FlushIntact(digest: Digest, p: Pack, chunks: seq<Block>)
    requires Intact(digest, p) && Verified(digest, chunks) && BatchPack(p, chunks, |chunks|).size <= TWO32
    ensures Intact(digest, BatchPack(p, chunks, |chunks|))
  {
    hide Inv;
    hide View;
    hide BatchPack;
    hide PutAll;
    hide BatchPackable;
    SmallBatchPackable(digest, p, chunks);
    BatchRefinesPutAll(p, chunks);
    PutAllGenuine(digest, View(p), chunks);
  }

  lemma FlushKeys(p: Pack, chunks: seq<Block>)
    ensures BatchPack(p, chunks, |chunks|).index.Keys == p.index.Keys + BlockHashes(chunks)
  {
    hide BatchPack;
    forall h: Hash ensures h in BatchPack(p, chunks, |chunks|).index <==> h in p.index || h in BlockHashes(chunks) {
      BatchKeys(p, chunks, |chunks|, h);
      if h in BlockHashes(chunks) {
        var b :| b in chunks && b.hash == h;
        var j :| 0 <= j < |chunks| && chunks[j] == b;
      }
    }
  }

  lemma BatchNothing(p: Pack)
    ensures BatchPack(p, [], 0) == p
  {
  }

  lemma BatchGrows(p: Pack, chunks: seq<Block>)
    ensures p.size <= BatchPack(p, chunks, |chunks|).size
  {
    SizesGrow(p, chunks, 0, |chunks|);
  }

  /** The store before anything was appended. */
  const EMPTY: Pack := Reopen([], map[])

  /** The store after a batch. */
  function Filled(p: Pack, blocks: seq<Block>): Pack {
    BatchPack(p, blocks, |blocks|)
  }

  /** Up to 2^32 bytes a store holds only blocks that hash to their key. */
  ghost predicate GenuineBelow(digest: Digest, p: Pack) {
    p.size <= TWO32 ==> Intact(digest, p)
  }

  lemma EmptyGenuine(digest: Digest)
    ensures GenuineBelow(digest, EMPTY)
  {
  }

  /** A flush of verified blocks keeps it so, whatever the store grows to, and indexes exactly its blocks. */
  lemma FilledGenuine(digest: Digest, p: Pack, blocks: seq<Block>)
    requires GenuineBelow(digest, p) && Verified(digest, blocks)
    ensures GenuineBelow(digest, Filled(p, blocks))
    ensures Filled(p, blocks).index.Keys == p.index.Keys + BlockHashes(blocks)
  {
    hide Intact;
    hide BatchPack;
    hide BlockHashes;
    BatchGrows(p, blocks);
    FlushKeys(p, blocks);
    if Filled(p, blocks).size <= TWO32 {
      FlushIntact(digest, p, blocks);
    }
  }

  /** What such a store answers with is genuine. */
  lemma ReadsGenuine(digest: Digest, p: Pack, hash: Hash)
    requires GenuineBelow(digest, p) && p.size <= TWO32 && hash in p.index
    ensures ReadChunk(p, hash).Data? && digest(ReadChunk(p, hash).bytes) == hash
  {
    hide Inv;
    assert hash in View(p);
    hide View;
    ReadIsView(p, hash);
  }
}
