/** Pieces of runs in which one IDC node downloads one version and reports it. */
module IdcRun {
  import opened Common
  import opened PackStore
  import opened PackBatch
  import opened PackFlush
  import opened Protocol

  type Stores = map<(NodeId, GameId), Pack>

  const NO_STORES: Stores := map[]

  /** Verified blocks with distinct hashes that fit into the buffer. */
  ghost predicate Batch(digest: Digest, blocks: seq<Block>) {
    |blocks| <= IDC_BATCH_SIZE && Verified(digest, blocks) &&
    forall i, j :: 0 <= i < j < |blocks| ==> blocks[i].hash != blocks[j].hash
  }

  lemma Then(digest: Digest, states: seq<Sys>, events: seq<Event>, e: Event)
    returns (states': seq<Sys>, events': seq<Event>)
    requires Behaviour(digest, states, events) && Enabled(digest, states[|events|], e)
    ensures Behaviour(digest, states', events') && states'[|events'|] == Next(digest, states[|events|], e)
    ensures states <= states' && events' == events + [e] && |states'| == |events'| + 1
  {
    hide Next;
    hide Enabled;
    states', events' := states + [Next(digest, states[|events|], e)], events + [e];
  }

  function TheTask(blocks: seq<Block>): Task {
    Task(1, 7, 1, BlockHashes(blocks))
  }

  /** Node 1 downloads version 1 of game 7, whose blocks are `blocks`. */
  function Working(blocks: seq<Block>, r: Run, stores: Stores, lost: set<Hash>): Sys {
    Sys(map[1 := Idc], map[(7, 1) := BlockHashes(blocks)], {}, map[], map[1 := TheTask(blocks)], map[1 := r], stores,
        map[1 := 1], {}, Marks(TheTask(blocks), lost))
  }

  function Loading(blocks: seq<Block>, sunk: set<Hash>, pending: seq<Block>): Run {
    Downloading(BlockHashes(blocks), BlockHashes(blocks), sunk, pending, false)
  }

  function Sinking(blocks: seq<Block>, k: nat): Run
    requires k <= |blocks|
  {
    Loading(blocks, BlockHashes(blocks[..k]), blocks[..k])
  }

  /** The run starts with nothing held. */
  lemma Begin(digest: Digest, blocks: seq<Block>) returns (states: seq<Sys>, events: seq<Event>)
    ensures Behaviour(digest, states, events) && states[|events|] == Working(blocks, Sinking(blocks, 0), NO_STORES, {})
  {
    var hashes := BlockHashes(blocks);
    var nodes: map<NodeId, Kind> := map[1 := Idc];
    var versions: map<(GameId, Version), set<Hash>> := map[(7, 1) := hashes];
    var s1 := Init.(nodes := nodes);
    var s2 := s1.(versions := versions);
    var s3 := s2.(tasks := map[1 := TheTask(blocks)]);
    hide BlockHashes;
    assert Next(digest, Init, Register(1, Idc)) == s1;
    assert Next(digest, s1, Publish(7, 1, Some(hashes))) == s2;
    assert Duty(s2, 7, 1, Idc) == hashes;
    assert Next(digest, s2, CreateTask(1, 1, 7, 1)) == s3;
    var s4 := StartState(digest, blocks, s3);
    states, events := [Init], [];
    states, events := Then(digest, states, events, Register(1, Idc));
    states, events := Then(digest, states, events, Publish(7, 1, Some(hashes)));
    states, events := Then(digest, states, events, CreateTask(1, 1, 7, 1));
    states, events := Then(digest, states, events, Start(1));
  }

  lemma StartState(digest: Digest, blocks: seq<Block>, s: Sys) returns (s': Sys)
    requires s == Init.(nodes := map[1 := Idc], versions := map[(7, 1) := BlockHashes(blocks)],
                        tasks := map[1 := TheTask(blocks)])
    ensures Enabled(digest, s, Start(1)) && s' == Next(digest, s, Start(1))
    ensures s' == Working(blocks, Sinking(blocks, 0), NO_STORES, {})
  {
    s' := Next(digest, s, Start(1));
    assert Held(s, 1, 7) == {} && BlockHashes(blocks) - {} == BlockHashes(blocks);
    assert BlockHashes(blocks[..0]) == {} && blocks[..0] == [];
    assert Marks(TheTask(blocks), {}) == {};
  }

  /** A block that does not fill the buffer. */
  lemma SinkOne(digest: Digest, blocks: seq<Block>, sunk: set<Hash>, pending: seq<Block>, stores: Stores,
      lost: set<Hash>, b: Block)
    requires Batch(digest, blocks) && b in blocks && |pending| + 1 < IDC_BATCH_SIZE
    ensures var s := Working(blocks, Loading(blocks, sunk, pending), stores, lost);
            Enabled(digest, s, Sink(1, b)) &&
            Next(digest, s, Sink(1, b))
                 == Working(blocks, Loading(blocks, sunk + {b.hash}, pending + [b]), stores, lost)
  {
    assert b.hash in BlockHashes(blocks);
    hide BlockHashes;
    hide Marks;
  }

  lemma {:induction false} SinkMany(digest: Digest, blocks: seq<Block>, k: nat)
    returns (states: seq<Sys>, events: seq<Event>)
    requires Batch(digest, blocks) && k <= |blocks| && k < IDC_BATCH_SIZE
    ensures Behaviour(digest, states, events) && states[|events|] == Working(blocks, Sinking(blocks, k), NO_STORES, {})
  {
    hide Next;
    hide Enabled;
    hide Working;
    if k == 0 {
      states, events := Begin(digest, blocks);
    } else {
      states, events := SinkMany(digest, blocks, k - 1);
      SinkOne(digest, blocks, BlockHashes(blocks[..k - 1]), blocks[..k - 1], NO_STORES, {}, blocks[k - 1]);
      assert blocks[..k] == blocks[..k - 1] + [blocks[k - 1]];
      BlockHashesSnoc(blocks[..k - 1], blocks[k - 1]);
      states, events := Then(digest, states, events, Sink(1, blocks[k - 1]));
    }
  }

  /** The final flush. */
  lemma FinishRun(digest: Digest, blocks: seq<Block>, pending: seq<Block>, stores: Stores, lost: set<Hash>)
    ensures var s := Working(blocks, Loading(blocks, BlockHashes(blocks), pending), stores, lost);
            Enabled(digest, s, Finish(1)) &&
            Next(digest, s, Finish(1))
            == Working(blocks, Reporting(BlockHashes(blocks), BlockHashes(blocks)),
                       stores[(1, 7) := Filled(StoreOf(s, 1, 7), pending)], lost - BlockHashes(pending))
  {
    hide Filled;
    hide BlockHashes;
    var t := TheTask(blocks);
    assert Marks(t, lost) - Marks(t, BlockHashes(pending)) == Marks(t, lost - BlockHashes(pending));
  }

  /** One report: the ledger lists the node. */
  lemma ReportOne(digest: Digest, blocks: seq<Block>, stores: Stores, lost: set<Hash>, hash: Hash)
    requires hash in BlockHashes(blocks)
    ensures var s := Working(blocks, Reporting(BlockHashes(blocks), BlockHashes(blocks)), stores, lost);
            Enabled(digest, s, Report(1, hash)) &&
            var s' := Next(digest, s, Report(1, hash));
            1 in Holders(s', 7, hash) && 1 in s'.nodes && s'.nodes[1] == Idc && s'.stores == stores
  {
    hide BlockHashes;
    hide Marks;
  }
}
