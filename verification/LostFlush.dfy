/** Two runs in which an IDC node reports blocks that it cannot serve. */
module LostFlush {
  import opened Common
  import opened PackStore
  import opened PackBatch
  import opened PackCrash
  import opened PackFlush
  import opened Protocol
  import opened IdcRun

  // ---------- a failed flush ----------

  lemma DropAll(digest: Digest, blocks: seq<Block>)
    requires Batch(digest, blocks) && |blocks| == IDC_BATCH_SIZE
    ensures var last := |blocks| - 1;
            var s := Working(blocks, Sinking(blocks, last), NO_STORES, {});
            Enabled(digest, s, FlushFails(1, blocks[last], EMPTY)) &&
            Next(digest, s, FlushFails(1, blocks[last], EMPTY))
            == Working(blocks, Loading(blocks, BlockHashes(blocks[..last]), []), NO_STORES[(1, 7) := EMPTY],
              BlockHashes(blocks))
  {
    var last := |blocks| - 1;
    assert blocks[last] in blocks && blocks[last].hash in BlockHashes(blocks);
    assert blocks[..last] + [blocks[last]] == blocks;
    var s := Working(blocks, Sinking(blocks, last), NO_STORES, {});
    assert Held(s, 1, 7) == {} && BlockHashes(blocks) - {} == BlockHashes(blocks);
    hide BlockHashes;
    assert Marks(TheTask(blocks), {}) == {};
  }

  /**
   * The first 63 blocks fill the buffer, the flush of the 64th fails, that block is fetched again, and the node reports
   * all 64: the ledger lists it for blocks it does not hold.
   */
  lemma ReportsLostBlocks(digest: Digest, blocks: seq<Block>) returns (states: seq<Sys>, events: seq<Event>)
    requires Batch(digest, blocks) && |blocks| == IDC_BATCH_SIZE
    ensures Behaviour(digest, states, events)
    ensures var s := states[|events|];
            1 in Holders(s, 7, blocks[0].hash) && 1 in s.nodes && s.nodes[1] == Idc && blocks[0].hash !in Held(s, 1, 7)
  {
    var last := |blocks| - 1;
    var stores, all := NO_STORES[(1, 7) := EMPTY], BlockHashes(blocks);
    var one := [blocks[last]];
    assert blocks[0] in blocks && blocks[0].hash in all && blocks[last] in blocks;
    assert BlockHashes(one) == {blocks[last].hash} && [] + one == one;
    assert blocks[..last] + one == blocks;
    BlockHashesSnoc(blocks[..last], blocks[last]);
    states, events := SinkMany(digest, blocks, last);
    DropAll(digest, blocks);
    hide *;
    states, events := Then(digest, states, events, FlushFails(1, blocks[last], EMPTY));
    SinkOne(digest, blocks, BlockHashes(blocks[..last]), [], stores, all, blocks[last]);
    states, events := Then(digest, states, events, Sink(1, blocks[last]));
    FinishRun(digest, blocks, one, stores, all);
    assert StoreOf(Working(blocks, Loading(blocks, all, one), stores, all), 1, 7) == EMPTY by {
      TheStore(blocks, Loading(blocks, all, one), stores, all);
    }
    states, events := Then(digest, states, events, Finish(1));
    FlushKeys(EMPTY, one);
    var stores' := stores[(1, 7) := Filled(EMPTY, one)];
    ReportOne(digest, blocks, stores', all - BlockHashes(one), blocks[0].hash);
    states, events := Then(digest, states, events, Report(1, blocks[0].hash));
    NotHeld(states[|events|], stores', one, blocks[0].hash);
  }

  lemma TheStore(blocks: seq<Block>, r: Run, stores: Stores, lost: set<Hash>)
    requires (1, 7) in stores
    ensures StoreOf(Working(blocks, r, stores, lost), 1, 7) == stores[(1, 7)]
  {
    hide Marks;
  }

  lemma NotHeld(s: Sys, stores: Stores, one: seq<Block>, hash: Hash)
    requires s.stores == stores && (1, 7) in stores && stores[(1, 7)] == Filled(EMPTY, one) && hash !in BlockHashes(one)
    ensures hash !in Held(s, 1, 7)
  {
    hide BlockHashes;
    FlushKeys(EMPTY, one);
    hide BatchPack;
  }

  // ---------- a pack that grows past 2^32 bytes ----------

  /** Two blocks of 2^31 bytes and one more. */
  ghost predicate PastLimit(digest: Digest, blocks: seq<Block>) {
    Batch(digest, blocks) && |blocks| == 3 && 2 * |blocks[0].data| == 2 * |blocks[1].data| == TWO32 &&
    blocks[0].data[0] == 0 && blocks[2].data == [1]
  }

  lemma PlaceStep(p: Pack, chunks: seq<Block>, i: nat)
    requires i < |chunks| && IsNew(p.index, chunks, i)
    ensures BatchPack(p, chunks, i + 1) == Place(BatchPack(p, chunks, i), chunks[i])
  {
    hide Place;
  }

  /** The third block is answered with the first byte of the first. */
  lemma WrapsAround(digest: Digest, blocks: seq<Block>)
    requires PastLimit(digest, blocks)
    ensures ReadChunk(Filled(EMPTY, blocks), blocks[2].hash) == Data([0])
  {
    assert forall i :: 0 <= i < 3 ==> IsNew(EMPTY.index, blocks, i);
    PlaceStep(EMPTY, blocks, 0);
    PlaceStep(EMPTY, blocks, 1);
    PlaceStep(EMPTY, blocks, 2);
    var p0, p1, p2 := BatchPack(EMPTY, blocks, 0), BatchPack(EMPTY, blocks, 1), BatchPack(EMPTY, blocks, 2);
    assert p0 == EMPTY;
    hide BatchPack;
    hide IsNew;
    PlaceGrows(p0, blocks[0]);
    PlaceGrows(p1, blocks[1]);
    assert p1.bytes[0..|blocks[0].data|][0] == p1.bytes[0];
    assert p2.bytes[..p1.size][0] == p2.bytes[0];
    PlaceWraps(p2, blocks[2]);
  }

  lemma PlaceGrows(p: Pack, b: Block)
    requires p.size <= |p.bytes| && |b.data| < TWO32
    ensures Place(p, b).size == p.size + |b.data| <= |Place(p, b).bytes|
    ensures Place(p, b).bytes[..p.size] == p.bytes[..p.size]
    ensures Place(p, b).bytes[p.size..p.size + |b.data|] == b.data
  {
    WriteAtEnd(p.bytes, b.data, p.size);
    hide WriteAt;
    hide PackLoc;
  }

  lemma PlaceWraps(p: Pack, b: Block)
    requires p.size == TWO32 <= |p.bytes| && p.bytes[0] == 0 && b.data == [1]
    ensures ReadChunk(Place(p, b), b.hash) == Data([0])
  {
    PlaceGrows(p, b);
    UnpackPack(p.size, 1);
    hide WriteAt;
    hide Unpack;
    hide PackLoc;
    var q := Place(p, b);
    assert q.bytes[..p.size][0] == q.bytes[0] && p.bytes[..p.size][0] == p.bytes[0];
    assert q.bytes[0..1] == [0];
  }

  /**
   * No flush fails: the node downloads the three blocks, reports them, and answers for the third with other bytes than
   * the ones it stored.
   */
  lemma ReportsWrappedBlock(digest: Digest, blocks: seq<Block>) returns (states: seq<Sys>, events: seq<Event>)
    requires PastLimit(digest, blocks)
    ensures Behaviour(digest, states, events)
    ensures var s := states[|events|];
            1 in Holders(s, 7, blocks[2].hash) && 1 in s.nodes && s.nodes[1] == Idc &&
            digest([1]) == blocks[2].hash && ReadChunk(StoreOf(s, 1, 7), blocks[2].hash) == Data([0])
  {
    var all := BlockHashes(blocks);
    assert blocks[..3] == blocks && blocks[2] in blocks && blocks[2].hash in all;
    states, events := SinkMany(digest, blocks, 3);
    WrapsAround(digest, blocks);
    hide *;
    FinishRun(digest, blocks, blocks, NO_STORES, {});
    NoStore(blocks, Loading(blocks, all, blocks), {});
    states, events := Then(digest, states, events, Finish(1));
    var stores := NO_STORES[(1, 7) := Filled(EMPTY, blocks)];
    ReportOne(digest, blocks, stores, {} - all, blocks[2].hash);
    states, events := Then(digest, states, events, Report(1, blocks[2].hash));
    assert StoreOf(states[|events|], 1, 7) == Filled(EMPTY, blocks) by { StoreIs(states[|events|], stores); }
  }

  lemma NoStore(blocks: seq<Block>, r: Run, lost: set<Hash>)
    ensures StoreOf(Working(blocks, r, NO_STORES, lost), 1, 7) == EMPTY
  {
    hide Marks;
  }

  lemma StoreIs(s: Sys, stores: Stores)
    requires s.stores == stores && (1, 7) in stores
    ensures StoreOf(s, 1, 7) == stores[(1, 7)]
  {
  }
}
