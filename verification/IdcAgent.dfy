/**
 * An IDC node syncing one version: find what is missing, download through a buffer into the store, list what it
 * holds.
 */
module IdcAgent {
  import opened Common
  import opened PackStore
  import opened PackBatch
  import opened PackCrash
  import opened PackFlush
  import opened GameStore
  import opened FetchServe
  import opened DownloadMissing

  /** The buffering sink of a download. */
  class IdcSink {
    const store: GameStore
    var pending: seq<Block>
    ghost var lost: set<Hash>  // every block that was in a buffer whose flush failed

    ghost predicate Valid(digest: Digest)
      reads this, store
    {
      store.Valid() && |pending| < IDC_BATCH_SIZE && Verified(digest, pending)
    }

    /** What the node will hold once the buffer is flushed. */
    ghost function Known(): set<Hash>
      reads this, store
    {
      store.index.Keys + BlockHashes(pending)
    }

    constructor (store: GameStore)
      ensures this.store == store && pending == [] && lost == {}
    {
      this.store, pending, lost := store, [], {};
    }

    /** Take the buffer and append it as one batch. When the append fails the taken blocks are gone. */
    method Flush(digest: Digest, faulty: bool) returns (ok: bool)
      requires store.Valid() && Verified(digest, pending)
      modifies this, store
      ensures Valid(digest) && pending == [] && (ok || faulty)
      ensures ok ==> store.Model() == BatchPack(old(store.Model()), old(pending), |old(pending)|)
      ensures ok ==> Known() == old(Known()) && lost == old(lost)
      ensures !ok ==> Unseen(Durable(store.bytes, store.index), old(store.Model()))
      ensures !ok ==> store.index == old(store.index) && lost == old(lost) + BlockHashes(old(pending))
      ensures old(store.size) <= store.size
      ensures old(Intact(digest, store.Model())) && store.size <= TWO32 ==> Intact(digest, store.Model())
    {
      hide Intact;
      hide BatchPack;
      var batch := pending;
      pending := [];
      if batch == [] {
        BatchNothing(store.Model());
        return true;
      }
      ghost var p := store.Model();
      var r := store.AppendBatch(batch, faulty);
      ok := r.Some?;
      FlushKeys(p, batch);
      BatchGrows(p, batch);
      hide BlockHashes;
      if !ok {
        lost := lost + BlockHashes(batch);
        if Intact(digest, p) { UnseenIntact(digest, p, store.Model()); }
      } else if Intact(digest, p) && BatchPack(p, batch, |batch|).size <= TWO32 {
        FlushIntact(digest, p, batch);
      }
    }

    /** Buffer one verified block; a full buffer is flushed. */
    method Push(digest: Digest, b: Block, faulty: bool) returns (ok: bool)
      requires Valid(digest) && digest(b.data) == b.hash && |b.data| < TWO32
      modifies this, store
      ensures Valid(digest) && (ok || faulty)
      ensures ok ==> Known() == old(Known()) + {b.hash} && lost == old(lost)
      ensures !ok ==> |old(pending)| + 1 >= IDC_BATCH_SIZE && pending == [] && store.index == old(store.index)
                      && lost == old(lost) + BlockHashes(old(pending)) + {b.hash}
      ensures |old(pending)| + 1 < IDC_BATCH_SIZE ==>
        pending == old(pending) + [b] && store.Model() == old(store.Model())
      ensures |old(pending)| + 1 >= IDC_BATCH_SIZE ==> pending == []
      ensures ok && |old(pending)| + 1 >= IDC_BATCH_SIZE ==>
        store.Model() == BatchPack(old(store.Model()), old(pending) + [b], IDC_BATCH_SIZE)
      ensures old(store.size) <= store.size
      ensures old(Intact(digest, store.Model())) && store.size <= TWO32 ==> Intact(digest, store.Model())
    {
      hide Intact;
      hide BatchPack;
      hide Unseen;
      BlockHashesSnoc(pending, b);
      pending := pending + [b];
      hide BlockHashes;
      if |pending| >= IDC_BATCH_SIZE {
        ok := Flush(digest, faulty);
      } else {
        ok := true;
      }
    }
  }

  /** Which blocks of a version are not held yet, and all of its blocks as a list, both in walking order. */
  method CollectMissing(store: GameStore, chunks: set<Hash>) returns (found: seq<Hash>, all: seq<Hash>)
    ensures Distinct(found) && Distinct(all)
    ensures forall h :: h in all <==> h in chunks
    ensures forall h :: h in found <==> h in chunks && h !in store.index
  {
    found, all := [], [];
    var todo := chunks;
    while todo != {}
      invariant todo <= chunks && Distinct(found) && Distinct(all)
      invariant forall h :: h in all <==> h in chunks && h !in todo
      invariant forall h :: h in found <==> h in chunks && h !in todo && h !in store.index
      decreases todo
    {
      var h: Hash :| h in todo;
      todo := todo - {h};
      var has := store.Contains(h);
      all := all + [h];
      if !has { found := found + [h]; }
    }
  }

  /** Every block a finished run was to fetch was held before, is held now, or was lost. */
  lemma Accounted(index: set<Hash>, lost: set<Hash>, index0: set<Hash>, chunks: set<Hash>, missing: seq<Hash>,
      sunk: seq<Block>)
    requires index0 + BlockHashes(sunk) <= index + lost
    requires forall h :: h in chunks && h !in index0 ==> h in missing
    requires forall h :: h in missing ==> h in Hashes(sunk)
    ensures chunks <= index + lost
  {
    hide BlockHashes;
    hide Hashes;
    forall h | h in chunks ensures h in index + lost {
      HashesAreBlocks(sunk, h);
    }
  }

  /** The next accepted block, perhaps after one whose push failed. */
  method PushNext(digest: Digest, sink: IdcSink, b: Block, refused: Block, faulty: bool)
    requires sink.Valid(digest) && digest(b.data) == b.hash && |b.data| < TWO32
    requires digest(refused.data) == refused.hash && |refused.data| < TWO32
    modifies sink, sink.store
    ensures sink.Valid(digest) && old(sink.Known()) + {b.hash} <= sink.Known() + sink.lost
    ensures old(sink.lost) <= sink.lost && (!faulty ==> sink.lost == old(sink.lost))
    ensures old(sink.Known()) <= sink.Known() + sink.lost
    ensures old(sink.store.size) <= sink.store.size
    ensures old(Intact(digest, sink.store.Model())) && sink.store.size <= TWO32 ==> Intact(digest, sink.store.Model())
  {
    hide Intact;
    hide BlockHashes;
    var offered: bool := *;
    if faulty && offered {
      var _ := sink.Push(digest, refused, true);
    }
    assert old(sink.Known()) <= sink.Known() + sink.lost by { NoBlocks(); }
    var ok := sink.Push(digest, b, false);
  }

  lemma NoBlocks()
    ensures BlockHashes([]) == {}
  {
  }

  /**
   * The sink's side of a download. `sunk` are the blocks it accepted, in order; in between it may have been offered
   * other verified blocks whose flush failed, so that their source was given up.
   */
  method PushAll(digest: Digest, sink: IdcSink, sunk: seq<Block>, faulty: bool)
    requires sink.Valid(digest) && Verified(digest, sunk)
    modifies sink, sink.store
    ensures sink.Valid(digest) && old(sink.Known()) + BlockHashes(sunk) <= sink.Known() + sink.lost
    ensures old(sink.lost) <= sink.lost && (!faulty ==> sink.lost == old(sink.lost))
    ensures old(sink.store.size) <= sink.store.size
    ensures old(Intact(digest, sink.store.Model())) && sink.store.size <= TWO32 ==> Intact(digest, sink.store.Model())
  {
    hide Intact;
    assert BlockHashes([]) == {};
    hide BlockHashes;
    for i := 0 to |sunk|
      invariant sink.Valid(digest)
      invariant old(sink.Known()) + BlockHashes(sunk[..i]) <= sink.Known() + sink.lost
      invariant old(sink.lost) <= sink.lost && (!faulty ==> sink.lost == old(sink.lost))
      invariant old(sink.store.size) <= sink.store.size
      invariant old(Intact(digest, sink.store.Model())) && sink.store.size <= TWO32 ==>
        Intact(digest, sink.store.Model())
    {
      BlockHashesSnoc(sunk[..i], sunk[i]);
      assert sunk[..i + 1] == sunk[..i] + [sunk[i]];
      assert sunk[i] in sunk;
      var other: int := *;
      var refused := sunk[if 0 <= other < |sunk| then other else i];
      assert refused in sunk;
      PushNext(digest, sink, sunk[i], refused, faulty);
    }
    assert sunk[..|sunk|] == sunk;
  }

  /** The scheduler answers usably for every block and the origin has them all. */
  ghost predicate Reachable(digest: Digest, query: nat -> Query, chunks: set<Hash>, origin: Option<Source>) {
    Steady(query, chunks) && origin.Some? && TrueTo(digest, origin.value, chunks)
  }

  /**
   * One IDC sync from start to report: missing blocks in hash order, download into the buffer, final flush, and the
   * sorted list of all blocks to report. The report is true if and only if the store has every reported block that a
   * failed flush dropped on the way. The origin is asked only for assigned blocks the store lacked, and for none if
   * the peers bring them all. While nothing fails the node gets to its report if they do, and also if it is
   * responsible for all it lacks and the origin has the version.
   */
  method RunIdc(digest: Digest, sink: IdcSink, query: nat -> Query, peers: nat -> Peers, chunks: set<Hash>,
      duty: set<Hash>, origin: Option<Source>, faulty: bool)
    returns (held: Option<seq<Hash>>, originAsked: seq<Hash>)
    requires sink.Valid(digest) && sink.pending == [] && sink.lost == {}
    modifies sink, sink.store
    ensures sink.Valid(digest)
    ensures held.Some? ==> Sorted(held.value) && Distinct(held.value) && Elements(held.value) == chunks
    ensures held.Some? ==> (chunks <= sink.store.index.Keys <==> sink.lost * chunks <= sink.store.index.Keys)
    ensures !faulty ==> sink.lost == {}
    ensures old(Intact(digest, sink.store.Model())) && sink.store.size <= TWO32 ==> Intact(digest, sink.store.Model())
    ensures Distinct(originAsked) && Elements(originAsked) <= (chunks - old(sink.store.index.Keys)) * duty
    ensures !faulty && Reachable(digest, query, chunks, origin) && chunks - old(sink.store.index.Keys) <= duty ==>
      held.Some?
    ensures Steady(query, chunks) && PeersSuffice(digest, query, peers, chunks - old(sink.store.index.Keys)) ==>
      originAsked == [] && (!faulty ==> held.Some?)
  {
    hide Intact;
    hide BatchPack;
    hide Usable;
    hide TrueTo;
    hide Unseen;
    hide PeersSuffice;
    var store := sink.store;
    ghost var index0 := store.index;
    assert BlockHashes([]) == {};
    var found, all := CollectMissing(store, chunks);
    var missing := SortHashes(found);
    assert Elements(missing) == chunks - index0.Keys;
    if Reachable(digest, query, chunks, origin) {
      TrueForFewer(digest, origin.value, chunks, Elements(missing));
    }
    var r, sunk;
    r, sunk, originAsked := Download(digest, query, peers, missing, duty, origin);
    hide BlockHashes;
    PushAll(digest, sink, sunk, faulty);
    if r.Error? { return None, originAsked; }
    var ok := sink.Flush(digest, faulty);
    if !ok { return None, originAsked; }
    Accounted(store.index.Keys, sink.lost, index0.Keys, chunks, missing, sunk);
    var sorted := SortHashes(all);
    held := Some(sorted);
  }

  lemma HashesAreBlocks(blocks: seq<Block>, h: Hash)
    ensures h in Hashes(blocks) <==> h in BlockHashes(blocks)
  {
    if h in Hashes(blocks) {
      var i :| 0 <= i < |Hashes(blocks)| && Hashes(blocks)[i] == h;
      assert blocks[i] in blocks;
    }
    if h in BlockHashes(blocks) {
      var b :| b in blocks && b.hash == h;
      var i :| 0 <= i < |blocks| && blocks[i] == b;
      assert Hashes(blocks)[i] == h;
    }
  }
}
