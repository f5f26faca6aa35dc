/** Which versions the origin publishes: exactly the well-formed ones whose blocks were all acknowledged. */
module Publication {
  import opened Common
  import opened Manifest
  import opened ChunkMap
  import opened UpdatePlan
  import opened PackStore
  import opened PackCrash
  import opened GameStore
  import opened OriginServer

  // ---------- which blocks a game's store has ----------

  /** An item of the stream was reached, had the hash of its bytes and was appended. */
  ghost predicate Acked(digest: Digest, steps: seq<Step>, h: Hash) {
    exists i :: 0 <= i < |steps| && steps[i].Item? && steps[i].item.hash == h && digest(steps[i].item.data) == h &&
      forall j :: 0 <= j <= i ==> |steps[j].item.hash| == HASH_LEN
  }

  lemma AckedTail(digest: Digest, steps: seq<Step>, h: Hash)
    requires steps != [] && |steps[0].item.hash| == HASH_LEN
    ensures Acked(digest, steps, h) <==>
            (steps[0].Item? && steps[0].item.hash == h && digest(steps[0].item.data) == h) ||
              Acked(digest, steps[1..], h)
  {
    if Acked(digest, steps[1..], h) {
      var i :| 0 <= i < |steps[1..]| && steps[1..][i].Item? && steps[1..][i].item.hash == h &&
        digest(steps[1..][i].item.data) == h && forall j :: 0 <= j <= i ==> |steps[1..][j].item.hash| == HASH_LEN;
      assert forall j :: 0 <= j <= i + 1 ==> steps[j] == if j == 0 then steps[0] else steps[1..][j - 1];
      assert steps[i + 1].item.hash == h;
    }
    if Acked(digest, steps, h) {
      var i :| 0 <= i < |steps| && steps[i].Item? && steps[i].item.hash == h && digest(steps[i].item.data) == h &&
        forall j :: 0 <= j <= i ==> |steps[j].item.hash| == HASH_LEN;
      assert forall j :: 0 <= j < |steps| - 1 ==> steps[1..][j] == steps[j + 1];
      if i > 0 {
        assert steps[1..][i - 1].item.hash == h;
      }
    }
  }

  lemma StepIndex(digest: Digest, p: Pack, step: Step, h: Hash)
    requires |step.item.hash| == HASH_LEN
    ensures h in UploadStep(digest, p, step).index <==>
            h in p.index || (step.Item? && step.item.hash == h && digest(step.item.data) == h)
  {
    hide WriteAt;
    hide PackLoc;
  }

  /** A stream adds exactly its acknowledged blocks. */
  lemma {:induction false} UploadIndex(digest: Digest, p: Pack, steps: seq<Step>, h: Hash)
    ensures h in UploadAll(digest, p, steps).index <==> h in p.index || Acked(digest, steps, h)
    decreases |steps|
  {
    hide UploadStep;
    if steps != [] && |steps[0].item.hash| == HASH_LEN {
      hide Acked;
      UploadIndex(digest, UploadStep(digest, p, steps[0]), steps[1..], h);
      StepIndex(digest, p, steps[0], h);
      AckedTail(digest, steps, h);
    }
  }

  ghost predicate AckedBy(digest: Digest, e: Event, game: nat, h: Hash) {
    e.Upload? && e.game == game && game > 0 && Acked(digest, e.steps, h)
  }

  /** A game's store has exactly the blocks that some upload stream for the game acknowledged. */
  lemma {:induction false} IndexedIffAcked(digest: Digest, events: seq<Event>, game: nat, h: Hash)
    ensures h in StoreOf(After(digest, events), game).index <==>
            exists k :: 0 <= k < |events| && AckedBy(digest, events[k], game, h)
    decreases |events|
  {
    hide Acceptable;
    hide CommitCheck;
    hide UploadAll;
    hide Acked;
    if events != [] {
      var last := |events| - 1;
      var o, e := After(digest, events[..last]), events[last];
      IndexedIffAcked(digest, events[..last], game, h);
      assert forall k :: 0 <= k < last ==> events[..last][k] == events[k];
      if e.Upload? {
        UploadIndex(digest, StoreOf(o, e.game), e.steps, h);
        if e.steps == [] { NoneAcked(digest, h); }
      }
    }
  }

  lemma NoneAcked(digest: Digest, h: Hash)
    ensures !Acked(digest, [], h)
  {
  }

  // ---------- which commits publish ----------

  /** A commit with positive numbers and an intact manifest whose body hash was sent along. */
  ghost predicate WellFormed(digest: Digest, e: Event)
    requires e.Commit?
  {
    e.game > 0 && e.version > 0 && |e.manifest| >= HASH_LEN && |e.manifestHash| == HASH_LEN &&
    digest(e.manifest[..|e.manifest| - HASH_LEN]) == e.manifestHash && Decode(digest, e.manifest).Ok?
  }

  /** The write of the manifest file was not stopped half way. */
  ghost predicate WrittenWhole(e: Event)
    requires e.Commit?
  {
    e.written.None? || e.written.value >= |e.manifest|
  }

  /** All blocks of the version were acknowledged before. */
  ghost predicate AllAcked(digest: Digest, events: seq<Event>, game: nat, manifest: Bytes)
    requires Decode(digest, manifest).Ok?
  {
    forall h: Hash :: InVersion(Decode(digest, manifest).value.files, h) ==>
      exists k :: 0 <= k < |events| && AckedBy(digest, events[k], game, h)
  }

  /**
   * Over every run: a commit publishes its manifest, and nothing else changes, if and only if it is well-formed, all
   * blocks of the version were acknowledged before and the write is not stopped. A stopped write leaves a torn file
   * there; any other commit leaves the published manifests alone.
   */
  lemma CommitPublishesIff(digest: Digest, events: seq<Event>, e: Event)
    requires e.Commit?
    ensures var o, next, key := After(digest, events), After(digest, events + [e]), (e.game, e.version);
            if WellFormed(digest, e) && AllAcked(digest, events, e.game, e.manifest) then
              if WrittenWhole(e) then
                next.published == o.published[key := e.manifest] && next.torn == o.torn - {key}
              else
                next.published == o.published[key := e.manifest[..e.written.value]] && next.torn == o.torn + {key}
            else next.published == o.published && next.torn == o.torn
    ensures forall g :: StoreOf(After(digest, events + [e]), g) == StoreOf(After(digest, events), g)
  {
    hide Decode;
    hide ChunkSet;
    hide InVersion;
    hide AckedBy;
    assert (events + [e])[..|events|] == events;
    var o := After(digest, events);
    assert After(digest, events + [e]) == Next(digest, o, e);
    hide After;
    if WellFormed(digest, e) {
      var files := Decode(digest, e.manifest).value.files;
      forall h: Hash
        ensures h in ChunkSet(files) <==> InVersion(files, h)
        ensures h in StoreOf(o, e.game).index
             <==> exists k :: 0 <= k < |events| && AckedBy(digest, events[k], e.game, h)
      {
        ChunkSetIsVersion(files, h);
        IndexedIffAcked(digest, events, e.game, h);
      }
    }
  }

  /** A version whose blocks one stream acknowledges is published by the commit that follows, whatever came before. */
  lemma UploadThenCommit(digest: Digest, events: seq<Event>, steps: seq<Step>, e: Event)
    requires e.Commit? && WellFormed(digest, e) && WrittenWhole(e)
    requires forall h: Hash :: InVersion(Decode(digest, e.manifest).value.files, h) ==> Acked(digest, steps, h)
    ensures var next := After(digest, events + [Upload(e.game, steps)] + [e]);
            (e.game, e.version) in next.published && next.published[(e.game, e.version)] == e.manifest &&
            (e.game, e.version) !in next.torn
  {
    hide Decode;
    hide InVersion;
    hide Acked;
    var before := events + [Upload(e.game, steps)];
    assert before[|events|] == Upload(e.game, steps);
    forall h: Hash | InVersion(Decode(digest, e.manifest).value.files, h)
      ensures exists k :: 0 <= k < |before| && AckedBy(digest, before[k], e.game, h)
    {
      assert AckedBy(digest, before[|events|], e.game, h);
    }
    CommitPublishesIff(digest, before, e);
  }

  // ---------- the methods ----------

  /** The check and the write of a commit; `written` are the bytes of a stopped write, which is answered as an error. */
  method CommitVersion(digest: Digest, store: GameStore, published: map<(nat, nat), Bytes>, e: Event)
    returns (reply: Reply, next: map<(nat, nat), Bytes>)
    requires e.Commit?
    ensures reply == Rejected <==> !WellFormed(digest, e)
    ensures reply == MissingChunks <==>
      WellFormed(digest, e) &&
      exists h: Hash :: InVersion(Decode(digest, e.manifest).value.files, h) && h !in store.index
    ensures reply == Published ==> e.written.None?
    ensures reply == WriteFailed ==> e.written.Some?
    ensures next == if reply == Published || (reply == WriteFailed && WrittenWhole(e)) then
                      published[(e.game, e.version) := e.manifest]
                    else if reply == WriteFailed then
                      published[(e.game, e.version) := e.manifest[..e.written.value]]
                    else published
  {
    hide Decode;
    hide ChunkSet;
    hide InVersion;
    next := published;
    if e.game == 0 || e.version == 0 || |e.manifest| < HASH_LEN { return Rejected, next; }
    var body := e.manifest[..|e.manifest| - HASH_LEN];
    if |e.manifestHash| != HASH_LEN || digest(body) != e.manifestHash { return Rejected, next; }
    var index := DecodeManifest(digest, e.manifest);
    if index.Err? { return Rejected, next; }
    var files := index.value.files;
    forall h: Hash
      ensures h in ChunkSet(files) <==> InVersion(files, h)
    {
      ChunkSetIsVersion(files, h);
    }
    var missing := FindMissing(store, ChunkSet(files));
    if missing != [] {
      assert missing[0] in missing;
      return MissingChunks, next;
    }
    if e.written.Some? {
      var n := if e.written.value < |e.manifest| then e.written.value else |e.manifest|;
      assert e.manifest[..|e.manifest|] == e.manifest;
      return WriteFailed, published[(e.game, e.version) := e.manifest[..n]];
    }
    reply, next := Published, published[(e.game, e.version) := e.manifest];
  }

  /** The asked blocks that the store has, in the order asked; a malformed hash is an error. */
  method QueryExisting(store: GameStore, hashes: seq<Bytes>)
    returns (ok: bool, existing: seq<Bytes>, ghost at: seq<nat>)
    ensures ok <==> forall i :: 0 <= i < |hashes| ==> |hashes[i]| == HASH_LEN
    ensures |at| == |existing| && forall j, k :: 0 <= j < k < |at| ==> at[j] < at[k]
    ensures forall j :: 0 <= j < |at| ==> at[j] < |hashes| && existing[j] == hashes[at[j]]
    ensures ok ==> forall i :: 0 <= i < |hashes| ==> (hashes[i] in store.index <==> i in at)
  {
    existing, at := [], [];
    for i := 0 to |hashes|
      invariant forall k :: 0 <= k < i ==> |hashes[k]| == HASH_LEN
      invariant |at| == |existing| && forall j, k :: 0 <= j < k < |at| ==> at[j] < at[k]
      invariant forall j :: 0 <= j < |at| ==> at[j] < i && existing[j] == hashes[at[j]]
      invariant forall k :: 0 <= k < i ==> (hashes[k] in store.index <==> k in at)
    {
      if |hashes[i]| != HASH_LEN { return false, existing, at; }
      var found := store.Contains(hashes[i]);
      if found { existing, at := existing + [hashes[i]], at + [i]; }
    }
    ok := true;
  }
}
