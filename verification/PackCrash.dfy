/** What is left on disk when an append stops half way, and what reopening the store makes of it. */
module PackCrash {
  import opened Common
  import opened PackStore
  import opened PackBatch

  /** The two durable parts of a store: the block file and the committed index. */
  datatype Durable = Durable(bytes: Bytes, index: Index)

  /** The disk still shows `p`: same index, same bytes below the append position, anything after it. */
  ghost predicate Unseen(d: Durable, p: Pack) {
    d.index == p.index && p.size <= |p.bytes| && p.size <= |d.bytes| && d.bytes[..p.size] == p.bytes[..p.size]
  }

  ghost predicate UnseenFrom(trace: seq<Durable>, from: nat, p: Pack) {
    forall k :: from <= k < |trace| ==> Unseen(trace[k], p)
  }

  /** Every state the disk went through from position `from` on is either still `p` or already `q`. */
  ghost predicate AllOrNothing(trace: seq<Durable>, from: nat, p: Pack, q: Pack) {
    forall k :: from <= k < |trace| ==> Unseen(trace[k], p) || trace[k] == Durable(q.bytes, q.index)
  }

  /** A write at the append position, finished or torn, leaves everything below it alone. */
  lemma WriteUnseen(d: Durable, p: Pack, data: Bytes, offset: nat)
    requires Unseen(d, p) && p.size <= offset
    ensures Unseen(Durable(WriteAt(d.bytes, data, offset), d.index), p)
  {
    var w := WriteAt(d.bytes, data, offset);
    if data != [] {
      assert w[..p.size] == d.bytes[..p.size];
    }
  }

  lemma ReopenUnseen(d: Durable, p: Pack)
    requires Inv(p) && Unseen(d, p)
    ensures Inv(Reopen(d.bytes, d.index)) && View(Reopen(d.bytes, d.index)) == View(p)
  {
    TailIrrelevant(p, Reopen(d.bytes, d.index));
  }

  lemma ReopenWhole(q: Pack)
    requires Inv(q)
    ensures Inv(Reopen(q.bytes, q.index)) && View(Reopen(q.bytes, q.index)) == View(q)
  {
    TailIrrelevant(q, Reopen(q.bytes, q.index));
  }

  /**
   * Stop an append anywhere and reopen: the store is intact and shows the old blocks or the old blocks and the new
   * one.
   */
  lemma AppendCrashAtomic(p: Pack, hash: Hash, data: Bytes, trace: seq<Durable>, from: nat, k: nat)
    requires Inv(p) && (hash in p.index || Packable(p, data))
    requires AllOrNothing(trace, from, p, AppendChunk(p, hash, data).0) && from <= k < |trace|
    ensures var r := Reopen(trace[k].bytes, trace[k].index);
            Inv(r) && (View(r) == View(p) || View(r) == Put(View(p), hash, data))
  {
    hide *;
    var q := AppendChunk(p, hash, data).0;
    AppendRefinesPut(p, hash, data);
    StoppedAppend(p, q, trace, from, k);
  }

  /** Stop a batch anywhere and reopen: all of its blocks are there or none. */
  lemma BatchCrashAtomic(p: Pack, chunks: seq<Block>, trace: seq<Durable>, from: nat, k: nat)
    requires Inv(p) && BatchPackable(p, chunks)
    requires AllOrNothing(trace, from, p, BatchPack(p, chunks, |chunks|)) && from <= k < |trace|
    ensures var r := Reopen(trace[k].bytes, trace[k].index);
            Inv(r) && (View(r) == View(p) || View(r) == PutAll(View(p), chunks))
  {
    hide *;
    var q := BatchPack(p, chunks, |chunks|);
    BatchRefinesPutAll(p, chunks);
    StoppedAppend(p, q, trace, from, k);
  }

  lemma StoppedAppend(p: Pack, q: Pack, trace: seq<Durable>, from: nat, k: nat)
    requires Inv(p) && Inv(q) && AllOrNothing(trace, from, p, q) && from <= k < |trace|
    ensures var r := Reopen(trace[k].bytes, trace[k].index);
            Inv(r) && (View(r) == View(p) || View(r) == View(q))
  {
    hide Inv;
    hide View;
    hide Unseen;
    var d := trace[k];
    if Unseen(d, p) {
      ReopenUnseen(d, p);
    } else {
      ReopenWhole(q);
    }
  }

  /** A failed append leaves index and stored bytes alone, whatever it wrote behind them. */
  ghost predicate TornFrom(p: Pack, after: Pack) {
    Unseen(Durable(after.bytes, after.index), p) && p.size <= after.size <= |after.bytes|
  }

  /** A failed append leaves an intact store intact. */
  lemma UnseenIntact(digest: Digest, p: Pack, q: Pack)
    requires Intact(digest, p) && Unseen(Durable(q.bytes, q.index), p) && p.size <= q.size <= |q.bytes|
    ensures Intact(digest, q)
  {
    TailIrrelevant(p, q);
    hide View;
    hide Inv;
  }
}
