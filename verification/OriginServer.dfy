/** The origin node: checked uploads into per-game stores, and publication of versions whose blocks are all there. */
module OriginServer {
  import opened Common
  import opened Manifest
  import opened ManifestRoundTrip
  import opened ChunkMap
  import opened UpdatePlan
  import opened PackStore
  import opened PackCrash
  import opened PackFlush
  import opened GameStore

  datatype UploadItem = UploadItem(hash: Bytes, data: Bytes)

  /** An uploaded item, or one whose append failed and left the store as `after`. */
  datatype Step = Item(item: UploadItem) | Torn(item: UploadItem, after: Pack)

  /** What the checks of a commit come to, and what it is answered. */
  datatype Verdict = Malformed | Incomplete | Cleared
  datatype Reply = Rejected | MissingChunks | WriteFailed | Published

  /** `stores` per game, `published` manifests per game and version. */
  datatype Origin = Origin(stores: map<nat, Pack>, published: map<(nat, nat), Bytes>,
    torn: set<(nat, nat)>)  // versions whose last manifest write stopped half way

  datatype Event =
    | Query(game: nat)
    | Upload(game: nat, steps: seq<Step>)
    | Commit(game: nat, version: nat, manifest: Bytes, manifestHash: Bytes,
      written: Option<nat>)  // bytes of a stopped write

  function StoreOf(o: Origin, game: nat): Pack {
    if game in o.stores then o.stores[game] else EMPTY
  }

  /** The first item names the game and every item is checked; a malformed hash ends the stream. */
  ghost function UploadAll(digest: Digest, p: Pack, steps: seq<Step>): Pack
    decreases |steps|
  {
    if steps == [] || |steps[0].item.hash| != HASH_LEN then p
    else UploadAll(digest, UploadStep(digest, p, steps[0]), steps[1..])
  }

  ghost function UploadStep(digest: Digest, p: Pack, step: Step): Pack
    requires |step.item.hash| == HASH_LEN
  {
    match step
    case Item(item) => UploadOne(digest, p, item)
    case Torn(_, after) => if TornFrom(p, after) then after else p
  }

  function UploadOne(digest: Digest, p: Pack, item: UploadItem): Pack
    requires |item.hash| == HASH_LEN
  {
    if digest(item.data) != item.hash then p else AppendChunk(p, item.hash, item.data).0
  }

  /** Whether a commit passes every check before the block check. */
  predicate Acceptable(digest: Digest, e: Event)
    requires e.Commit?
  {
    e.game > 0 && e.version > 0 && |e.manifest| >= HASH_LEN && |e.manifestHash| == HASH_LEN &&
    digest(e.manifest[..|e.manifest| - HASH_LEN]) == e.manifestHash && Decode(digest, e.manifest).Ok?
  }

  function CommitCheck(digest: Digest, o: Origin, e: Event): Verdict
    requires e.Commit?
  {
    if !Acceptable(digest, e) then Malformed
    else if ChunkSet(Decode(digest, e.manifest).value.files) <= StoreOf(o, e.game).index.Keys then Cleared
    else Incomplete
  }

  ghost function Next(digest: Digest, o: Origin, e: Event): Origin {
    match e
    case Query(game) => if game == 0 then o else o.(stores := o.stores[game := StoreOf(o, game)])
    case Upload(game, steps) =>
      if game == 0 || steps == [] then o else o.(stores := o.stores[game := UploadAll(digest, StoreOf(o, game), steps)])
    case Commit(game, version, manifest, _, written) =>
      if !Acceptable(digest, e) then o
      else
        var ready := o.(stores := o.stores[game := StoreOf(o, game)]);
        if CommitCheck(digest, o, e) != Cleared then ready
        else if written.Some? && written.value < |manifest| then
          ready.(published := o.published[(game, version) := manifest[..written.value]],
            torn := o.torn + {(game, version)})
        else ready.(published := o.published[(game, version) := manifest], torn := o.torn - {(game, version)})
  }

  ghost function After(digest: Digest, events: seq<Event>): Origin
    decreases |events|
  {
    if events == [] then Origin(map[], map[], {})
    else Next(digest, After(digest, events[..|events| - 1]), events[|events| - 1])
  }

  // ---------- the methods ----------

  /**
   * One upload stream: an acknowledgement per item. Wrong bytes are refused, a failing append is acknowledged as an
   * error and the stream goes on, the rest is appended; a malformed hash ends it.
   */
  method ProcessUpload(digest: Digest, store: GameStore, items: seq<UploadItem>, faulty: bool)
    returns (acks: seq<bool>, ok: bool, ghost steps: seq<Step>)
    requires store.Valid()
    modifies store
    ensures store.Valid() && store.Model() == UploadAll(digest, old(store.Model()), steps)
    ensures |steps| == |acks| <= |items| && forall i :: 0 <= i < |acks| ==>
      Handled(digest, items[i], steps[i], acks[i], faulty)
    ensures ok <==> |acks| == |items|
    ensures |acks| < |items| ==> |items[|acks|].hash| != HASH_LEN
    ensures forall h :: h in store.index <==>
      h in old(store.index) || exists i :: 0 <= i < |acks| && acks[i] && items[i].hash == h
  {
    hide AppendChunk;
    hide UploadStep;
    acks, steps := [], [];
    assert UploadAll(digest, store.Model(), []) == store.Model();
    for i := 0 to |items|
      invariant store.Valid() && |acks| == |steps| == i
      invariant store.Model() == UploadAll(digest, old(store.Model()), steps)
      invariant forall k :: 0 <= k < i ==> Handled(digest, items[k], steps[k], acks[k], faulty)
      invariant forall h :: h in store.index <==>
        h in old(store.index) || exists k :: 0 <= k < i && acks[k] && items[k].hash == h
    {
      if |items[i].hash| != HASH_LEN { return acks, false, steps; }
      ghost var p := store.Model();
      if digest(items[i].data) != items[i].hash {
        StepRefused(digest, p, items[i]);
        acks, steps := acks + [false], Extended(digest, old(store.Model()), steps, Item(items[i]));
      } else {
        var r := store.Append(items[i].hash, items[i].data, faulty);
        StepAppended(digest, p, items[i], store.Model());
        AppendIndexes(p, items[i].hash, items[i].data);
        assert store.index.Keys == p.index.Keys + if r.Some? then {items[i].hash} else {};
        ghost var step := if r.Some? then Item(items[i]) else Torn(items[i], store.Model());
        acks, steps := acks + [r.Some?], Extended(digest, old(store.Model()), steps, step);
      }
    }
    ok := true;
  }

  lemma AppendIndexes(p: Pack, hash: Hash, data: Bytes)
    ensures AppendChunk(p, hash, data).0.index.Keys == p.index.Keys + {hash}
  {
  }

  /** What became of one item. */
  ghost predicate Handled(digest: Digest, item: UploadItem, step: Step, ack: bool, faulty: bool) {
    |item.hash| == HASH_LEN && step.item == item && (step.Torn? ==> faulty && digest(item.data) == item.hash) &&
    (ack <==> digest(item.data) == item.hash && step.Item?)
  }

  ghost function Extended(digest: Digest, p: Pack, steps: seq<Step>, step: Step): (r: seq<Step>)
    requires |step.item.hash| == HASH_LEN && forall k :: 0 <= k < |steps| ==> |steps[k].item.hash| == HASH_LEN
    ensures r == steps + [step]
    ensures UploadAll(digest, p, r) == UploadStep(digest, UploadAll(digest, p, steps), step)
    decreases |steps|
  {
    if steps == [] then
      assert [step][1..] == [];
      [step]
    else
      var rest := Extended(digest, UploadStep(digest, p, steps[0]), steps[1..], step);
      assert (steps + [step])[1..] == rest && (steps + [step])[0] == steps[0];
      steps + [step]
  }

  lemma StepRefused(digest: Digest, p: Pack, item: UploadItem)
    requires |item.hash| == HASH_LEN && digest(item.data) != item.hash
    ensures UploadStep(digest, p, Item(item)) == p
  {
    hide AppendChunk;
  }

  lemma StepAppended(digest: Digest, p: Pack, item: UploadItem, after: Pack)
    requires |item.hash| == HASH_LEN && digest(item.data) == item.hash
    ensures UploadStep(digest, p, Item(item)) == AppendChunk(p, item.hash, item.data).0
    ensures TornFrom(p, after) ==> UploadStep(digest, p, Torn(item, after)) == after
  {
    hide AppendChunk;
    hide TornFrom;
  }

  /** The block check of a commit, which stops after five missing examples. */
  method FindMissing(store: GameStore, chunks: set<Hash>) returns (missing: seq<Hash>)
    ensures missing == [] <==> chunks <= store.Model().index.Keys
    ensures |missing| <= 5 && forall h :: h in missing ==> h in chunks && h !in store.Model().index
  {
    missing := [];
    var todo := chunks;
    while todo != {}
      invariant todo <= chunks && |missing| < 5
      invariant forall h :: h in missing ==> h in chunks && h !in store.index
      invariant missing == [] ==> forall h :: h in chunks && h !in todo ==> h in store.index
      decreases todo
    {
      var h: Hash :| h in todo;
      todo := todo - {h};
      var found := store.Contains(h);
      if !found {
        missing := missing + [h];
        assert h in missing;
        if |missing| >= 5 { return; }
      }
    }
    if missing != [] {
      assert missing[0] in missing;
    }
  }

  // ---------- publication closure ----------

  /** Below 2^32 bytes a store holds only blocks that hash to their key. */
  ghost predicate StoreClean(digest: Digest, p: Pack) {
    p.size < TWO32 ==> Intact(digest, p)
  }

  /** A published manifest that was written whole decodes and its blocks are indexed. */
  ghost predicate Closed(digest: Digest, o: Origin) {
    (forall g :: g in o.stores ==> StoreClean(digest, o.stores[g])) &&
    forall g, v :: (g, v) in o.published && (g, v) !in o.torn ==>
      Decode(digest, o.published[(g, v)]).Ok? &&
      ChunkSet(Decode(digest, o.published[(g, v)]).value.files) <= StoreOf(o, g).index.Keys
  }

  lemma AppendClean(digest: Digest, p: Pack, item: UploadItem)
    requires |item.hash| == HASH_LEN && StoreClean(digest, p)
    ensures StoreClean(digest, UploadOne(digest, p, item))
    ensures p.index.Keys <= UploadOne(digest, p, item).index.Keys
    ensures p.size <= UploadOne(digest, p, item).size
  {
    hide Inv;
    hide View;
    hide PackLoc;
    hide Unpack;
    hide WriteAt;
    var q := UploadOne(digest, p, item);
    if digest(item.data) == item.hash && q.size < TWO32 {
      AppendRefinesPut(p, item.hash, item.data);
    }
  }

  lemma StepClean(digest: Digest, p: Pack, step: Step)
    requires |step.item.hash| == HASH_LEN && StoreClean(digest, p)
    ensures StoreClean(digest, UploadStep(digest, p, step))
    ensures p.index.Keys <= UploadStep(digest, p, step).index.Keys
  {
    hide Intact;
    hide UploadOne;
    match step {
      case Item(item) => AppendClean(digest, p, item);
      case Torn(_, after) =>
        if TornFrom(p, after) && after.size < TWO32 {
          UnseenIntact(digest, p, after);
        }
    }
  }

  lemma {:induction false} UploadClean(digest: Digest, p: Pack, steps: seq<Step>)
    requires StoreClean(digest, p)
    ensures StoreClean(digest, UploadAll(digest, p, steps))
    ensures p.index.Keys <= UploadAll(digest, p, steps).index.Keys
    decreases |steps|
  {
    hide StoreClean;
    hide UploadStep;
    if steps != [] && |steps[0].item.hash| == HASH_LEN {
      StepClean(digest, p, steps[0]);
      UploadClean(digest, UploadStep(digest, p, steps[0]), steps[1..]);
    }
  }

  lemma EmptyClean(digest: Digest)
    ensures StoreClean(digest, EMPTY)
  {
  }

  lemma StepClosed(digest: Digest, o: Origin, e: Event)
    requires Closed(digest, o)
    ensures Closed(digest, Next(digest, o, e))
  {
    hide StoreClean;
    hide Decode;
    hide ChunkSet;
    hide UploadAll;
    EmptyClean(digest);
    if e.Upload? {
      UploadClean(digest, StoreOf(o, e.game), e.steps);
    }
  }

  lemma {:induction false} AlwaysClosed(digest: Digest, events: seq<Event>)
    ensures Closed(digest, After(digest, events))
    decreases |events|
  {
    hide Next;
    hide StoreClean;
    if events != [] {
      AlwaysClosed(digest, events[..|events| - 1]);
      StepClosed(digest, After(digest, events[..|events| - 1]), events[|events| - 1]);
    }
  }

  /**
   * After any interleaving of queries, uploads and commits a published manifest that was written whole decodes, and
   * while its game's store is below 2^32 bytes every block it names reads back as bytes with that hash.
   */
  lemma PublishedIsReadable(digest: Digest, events: seq<Event>, game: nat, version: nat, hash: Hash)
    requires (game, version) in After(digest, events).published && (game, version) !in After(digest, events).torn
    requires StoreOf(After(digest, events), game).size < TWO32
    ensures var manifest := After(digest, events).published[(game, version)];
            Decode(digest, manifest).Ok? &&
            (hash in ChunkSet(Decode(digest, manifest).value.files) ==>
               var r := ReadChunk(StoreOf(After(digest, events), game), hash);
               r.Data? && digest(r.bytes) == hash)
  {
    hide Decode;
    hide ChunkSet;
    hide After;
    hide ReadChunk;
    AlwaysClosed(digest, events);
    EmptyClean(digest);
    var p := StoreOf(After(digest, events), game);
    assert StoreClean(digest, p);
    ReadIsView(p, hash);
  }

  /** A manifest whose write stopped half way is never read as the version that was committed. */
  lemma TornManifestDiffers(digest: Digest, manifest: Bytes, written: nat)
    requires Decode(digest, manifest).Ok? && written < |manifest|
    ensures Decode(digest, manifest[..written]) != Decode(digest, manifest)
  {
    hide Decode;
    if Decode(digest, manifest[..written]).Ok? {
      NoTruncationNoTrailing(digest, manifest[..written], manifest[written..]);
      assert manifest[..written] + manifest[written..] == manifest;
    }
  }
}
