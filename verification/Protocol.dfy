/** The scheduler, its chunk ledger and the IDC nodes as one system that moves in atomic steps. */
module Protocol {
  import opened Common
  import opened PackStore
  import opened PackBatch
  import opened PackCrash
  import opened PackFlush

  type NodeId = nat
  type GameId = nat
  type Version = nat
  type TaskId = nat

  datatype Kind = Idc | Cafe | Origin

  /** `duty` is the set of blocks the node may fetch from the origin. */
  datatype Task = Task(node: NodeId, game: GameId, version: Version, duty: set<Hash>)

  /** An IDC node working on a task: filling its store through a buffer, then reporting block by block. */
  datatype Run =
    | Downloading(chunks: set<Hash>, missing: set<Hash>, sunk: set<Hash>, pending: seq<Block>, asked: bool)
    | Reporting(chunks: set<Hash>, todo: set<Hash>)
    | Aborted

  datatype Sys = Sys(
    nodes: map<NodeId, Kind>,
    versions: map<(GameId, Version), set<Hash>>,
    damaged: set<(GameId, Version)>,        // published manifests that do not decode
    ledger: map<(GameId, Hash), seq<NodeId>>,
    tasks: map<TaskId, Task>,
    runs: map<TaskId, Run>,
    stores: map<(NodeId, GameId), Pack>,
    attempts: map<TaskId, nat>,             // how often each task was started
    egress: set<(TaskId, nat, Hash)>,       // what the origin was asked for: task, attempt, block
    lost: set<(NodeId, GameId, Hash)>)      // dropped by a failed flush and not stored since

  datatype Event =
    | Register(id: NodeId, kind: Kind)
    | Publish(game: GameId, version: Version, chunks: Option<set<Hash>>)
    | CreateTask(task: TaskId, node: NodeId, game: GameId, version: Version)
    | Rollback(task: TaskId, node: NodeId, game: GameId, version: Version)
    | Start(task: TaskId)
    | Sink(task: TaskId, block: Block)
    | FlushFails(task: TaskId, block: Block, after: Pack)  // the store, with what the append left behind
    | AskOrigin(task: TaskId, hashes: set<Hash>)
    | Finish(task: TaskId)
    | Report(task: TaskId, hash: Hash)
    | Abort(task: TaskId)
    | CafeReport(node: NodeId, game: GameId, hash: Hash)

  // ---------- the scheduler's tables ----------

  function Holders(s: Sys, game: GameId, hash: Hash): seq<NodeId> {
    if (game, hash) in s.ledger then s.ledger[(game, hash)] else []
  }

  /** Recording a holder is idempotent. */
  function Record(s: Sys, node: NodeId, game: GameId, hash: Hash): Sys {
    var holders := Holders(s, game, hash);
    if node in holders then s else s.(ledger := s.ledger[(game, hash) := holders + [node]])
  }

  /** The blocks of the version that nobody holds yet, for an IDC node; nothing for other nodes or unknown versions. */
  function Duty(s: Sys, game: GameId, version: Version, kind: Kind): set<Hash> {
    if kind != Idc || (game, version) !in s.versions then {}
    else set h | h in s.versions[(game, version)] && Holders(s, game, h) == []
  }

  /** The assignment of a new task; none when the stored manifest does not decode. */
  method AssignIdcChunks(s: Sys, game: GameId, version: Version, kind: Kind) returns (duty: Option<seq<Hash>>)
    ensures duty.Some? <==> Assignable(s, game, version, kind)
    ensures duty.Some? ==>
      Sorted(duty.value) && Distinct(duty.value) && Elements(duty.value) == Duty(s, game, version, kind)
  {
    if kind != Idc { return Some([]); }
    if (game, version) in s.damaged { return None; }
    if (game, version) !in s.versions { return Some([]); }
    var found: seq<Hash> := [];
    var todo := s.versions[(game, version)];
    while todo != {}
      invariant todo <= s.versions[(game, version)] && Distinct(found)
      invariant forall h :: h in found <==> h in s.versions[(game, version)] && h !in todo && Holders(s, game, h) == []
      decreases todo
    {
      var h: Hash :| h in todo;
      todo := todo - {h};
      if Holders(s, game, h) == [] {
        found := found + [h];
      }
    }
    var sorted := SortHashes(found);
    duty := Some(sorted);
  }

  predicate Assignable(s: Sys, game: GameId, version: Version, kind: Kind) {
    kind == Idc ==> (game, version) !in s.damaged
  }

  // ---------- the nodes ----------

  function StoreOf(s: Sys, node: NodeId, game: GameId): Pack {
    if (node, game) in s.stores then s.stores[(node, game)] else EMPTY
  }

  /** The blocks a node's index lists. */
  function Held(s: Sys, node: NodeId, game: GameId): set<Hash> {
    StoreOf(s, node, game).index.Keys
  }

  function StoreAll(s: Sys, t: Task, blocks: seq<Block>): Sys {
    s.(stores := s.stores[(t.node, t.game) := Filled(StoreOf(s, t.node, t.game), blocks)],
       lost := s.lost - Marks(t, BlockHashes(blocks)))
  }

  function Marks(t: Task, hashes: set<Hash>): set<(NodeId, GameId, Hash)> {
    set h | h in hashes :: (t.node, t.game, h)
  }

  /** A flush that fails drops the whole buffer, with the block that filled it. */
  function Drop(s: Sys, t: Task, blocks: seq<Block>, after: Pack): Sys {
    s.(stores := s.stores[(t.node, t.game) := after],
       lost := s.lost + Marks(t, BlockHashes(blocks) - Held(s, t.node, t.game)))
  }

  function SetRun(s: Sys, id: TaskId, r: Run): Sys {
    s.(runs := s.runs[id := r])
  }

  function Attempts(s: Sys, id: TaskId): nat {
    if id in s.attempts then s.attempts[id] else 0
  }

  function Requests(id: TaskId, attempt: nat, hashes: set<Hash>): set<(TaskId, nat, Hash)> {
    set h | h in hashes :: (id, attempt, h)
  }

  predicate InRun(s: Sys, id: TaskId) {
    id in s.tasks && id in s.runs
  }

  /** A verified block that the run is still to fetch. */
  predicate Offered(digest: Digest, s: Sys, task: TaskId, block: Block) {
    InRun(s, task) && s.runs[task].Downloading? && block.hash in s.runs[task].missing &&
    digest(block.data) == block.hash && |block.data| < TWO32
  }

  ghost predicate Enabled(digest: Digest, s: Sys, e: Event) {
    match e
    case Register(id, _) => id !in s.nodes
    case Publish(_, _, _) => true
    case CreateTask(task, node, game, version) =>
      task !in s.tasks && node in s.nodes && Assignable(s, game, version, s.nodes[node])
    case Rollback(task, node, game, version) =>
      task !in s.tasks && node in s.nodes && ((game, version) in s.versions || (game, version) in s.damaged)
    case Start(task) =>
      task in s.tasks && (task in s.runs ==> s.runs[task].Aborted?) &&
      s.tasks[task].node in s.nodes && s.nodes[s.tasks[task].node] == Idc &&
      (s.tasks[task].game, s.tasks[task].version) in s.versions
    case Sink(task, block) => Offered(digest, s, task, block)
    case FlushFails(task, block, after) =>
      Offered(digest, s, task, block) && |s.runs[task].pending| + 1 >= IDC_BATCH_SIZE &&
      TornFrom(StoreOf(s, s.tasks[task].node, s.tasks[task].game), after)
    case AskOrigin(task, hashes) =>
      InRun(s, task) && task in s.attempts && s.runs[task].Downloading? && !s.runs[task].asked &&
      hashes <= s.tasks[task].duty && hashes <= s.runs[task].missing &&
      s.runs[task].missing - s.tasks[task].duty <= s.runs[task].sunk
    case Finish(task) =>
      InRun(s, task) && s.runs[task].Downloading? && s.runs[task].missing <= s.runs[task].sunk
    case Report(task, hash) => InRun(s, task) && s.runs[task].Reporting? && hash in s.runs[task].todo
    case Abort(task) => InRun(s, task)
    case CafeReport(node, _, _) => node in s.nodes && s.nodes[node] == Cafe
  }

  /** A block goes into the buffer; a full buffer goes into the store at once. */
  function AfterSink(s: Sys, task: TaskId, block: Block): Sys
    requires InRun(s, task) && s.runs[task].Downloading?
  {
    var r := s.runs[task];
    var pending := r.pending + [block];
    var r' := r.(sunk := r.sunk + {block.hash});
    if |pending| >= IDC_BATCH_SIZE then SetRun(StoreAll(s, s.tasks[task], pending), task, r'.(pending := []))
    else SetRun(s, task, r'.(pending := pending))
  }

  function Next(digest: Digest, s: Sys, e: Event): Sys
    requires Enabled(digest, s, e)
  {
    match e
    case Register(id, kind) => s.(nodes := s.nodes[id := kind])
    case Publish(game, version, chunks) =>
      if chunks.None? then s.(versions := s.versions - {(game, version)}, damaged := s.damaged + {(game, version)})
      else s.(versions := s.versions[(game, version) := chunks.value], damaged := s.damaged - {(game, version)})
    case CreateTask(task, node, game, version) =>
      s.(tasks := s.tasks[task := Task(node, game, version, Duty(s, game, version, s.nodes[node]))])
    case Rollback(task, node, game, version) => s.(tasks := s.tasks[task := Task(node, game, version, {})])
    case Start(task) =>
      var t := s.tasks[task];
      var chunks := s.versions[(t.game, t.version)];
      SetRun(s, task, Downloading(chunks, chunks - Held(s, t.node, t.game), {}, [], false))
      .(attempts := s.attempts[task := Attempts(s, task) + 1])
    case Sink(task, block) => AfterSink(s, task, block)
    case FlushFails(task, block, after) =>
      var r := s.runs[task];
      SetRun(Drop(s, s.tasks[task], r.pending + [block], after), task, r.(pending := []))
    case AskOrigin(task, hashes) =>
      SetRun(s, task, s.runs[task].(asked := true)).(egress := s.egress + Requests(task, s.attempts[task], hashes))
    case Finish(task) =>
      var r := s.runs[task];
      SetRun(StoreAll(s, s.tasks[task], r.pending), task, Reporting(r.chunks, r.chunks))
    case Report(task, hash) =>
      var r := s.runs[task];
      SetRun(Record(s, s.tasks[task].node, s.tasks[task].game, hash), task, Reporting(r.chunks, r.todo - {hash}))
    case Abort(task) => SetRun(s, task, Aborted)
    case CafeReport(node, game, hash) => Record(s, node, game, hash)
  }

  const Init := Sys(map[], map[], {}, map[], map[], map[], map[], map[], {}, {})

  /** `states` is a run of the system driven by `events`. */
  ghost predicate Behaviour(digest: Digest, states: seq<Sys>, events: seq<Event>) {
    |states| == |events| + 1 && states[0] == Init &&
    forall i :: 0 <= i < |events| ==>
      Enabled(digest, states[i], events[i]) && states[i + 1] == Next(digest, states[i], events[i])
  }

  // ---------- the ledger lists nodes that have the block, or lost it in a flush ----------

  /** Below 2^32 bytes every store holds genuine bytes only. */
  ghost predicate StoresGenuine(digest: Digest, s: Sys) {
    forall k :: k in s.stores ==> GenuineBelow(digest, s.stores[k])
  }

  /** What a node holds of a game, and what a failed flush cost it. */
  ghost function HeldOrLost(s: Sys, node: NodeId, game: GameId): set<Hash> {
    Held(s, node, game) + set k | k in s.lost && k.0 == node && k.1 == game :: k.2
  }

  ghost predicate LostApart(s: Sys) {
    forall n, g, h :: (n, g, h) in s.lost ==> h !in Held(s, n, g)
  }

  ghost predicate LedgerSound(s: Sys) {
    forall g, h, n :: (g, h) in s.ledger && n in s.ledger[(g, h)]
      ==> n in s.nodes && (s.nodes[n] == Idc ==> h in HeldOrLost(s, n, g))
  }

  ghost predicate RunSound(digest: Digest, s: Sys, id: TaskId)
    requires id in s.runs
  {
    id in s.tasks && s.tasks[id].node in s.nodes && id in s.attempts &&
    var had := HeldOrLost(s, s.tasks[id].node, s.tasks[id].game);
    match s.runs[id]
    case Downloading(chunks, missing, sunk, pending, _) =>
      chunks <= had + missing && sunk <= had + BlockHashes(pending) && |pending| < IDC_BATCH_SIZE &&
      Verified(digest, pending)
    case Reporting(chunks, todo) => todo <= chunks <= had
    case Aborted => true
  }

  ghost predicate Sound(digest: Digest, s: Sys) {
    StoresGenuine(digest, s) && LostApart(s) && LedgerSound(s) && forall id :: id in s.runs ==> RunSound(digest, s, id)
  }

  lemma LostOf(s: Sys, node: NodeId, game: GameId, hash: Hash)
    ensures hash in HeldOrLost(s, node, game) <==> hash in Held(s, node, game) || (node, game, hash) in s.lost
  {
    if (node, game, hash) in s.lost {
      var k := (node, game, hash);
      assert k.0 == node && k.1 == game && k.2 == hash;
    }
  }

  /** Storing blocks only adds to what a node holds, and clears them from its losses. */
  lemma StoreAllGrows(digest: Digest, s: Sys, t: Task, blocks: seq<Block>)
    requires StoresGenuine(digest, s) && LostApart(s) && Verified(digest, blocks)
    ensures StoresGenuine(digest, StoreAll(s, t, blocks)) && LostApart(StoreAll(s, t, blocks))
    ensures forall n, g :: HeldOrLost(s, n, g) <= HeldOrLost(StoreAll(s, t, blocks), n, g)
    ensures BlockHashes(blocks) <= HeldOrLost(StoreAll(s, t, blocks), t.node, t.game)
  {
    hide GenuineBelow;
    hide Filled;
    hide BlockHashes;
    hide EMPTY;
    var s' := StoreAll(s, t, blocks);
    EmptyGenuine(digest);
    FilledGenuine(digest, StoreOf(s, t.node, t.game), blocks);
    assert forall n, g ::
      Held(s', n, g) == Held(s, n, g) + (if n == t.node && g == t.game then BlockHashes(blocks) else {});
    hide Held;
    hide HeldOrLost;
    forall n, g, h | h in HeldOrLost(s, n, g) || (n == t.node && g == t.game && h in BlockHashes(blocks))
      ensures h in HeldOrLost(s', n, g)
    {
      LostOf(s, n, g, h);
      LostOf(s', n, g, h);
    }
  }

  /** What a failed flush drops is still accounted for. */
  lemma DropGrows(digest: Digest, s: Sys, t: Task, blocks: seq<Block>, after: Pack)
    requires StoresGenuine(digest, s) && LostApart(s) && TornFrom(StoreOf(s, t.node, t.game), after)
    ensures StoresGenuine(digest, Drop(s, t, blocks, after)) && LostApart(Drop(s, t, blocks, after))
    ensures forall n, g :: HeldOrLost(s, n, g) <= HeldOrLost(Drop(s, t, blocks, after), n, g)
    ensures BlockHashes(blocks) <= HeldOrLost(Drop(s, t, blocks, after), t.node, t.game)
  {
    hide BlockHashes;
    hide EMPTY;
    hide Intact;
    var s' := Drop(s, t, blocks, after);
    EmptyGenuine(digest);
    if after.size <= TWO32 {
      UnseenIntact(digest, StoreOf(s, t.node, t.game), after);
    }
    hide GenuineBelow;
    assert forall n, g :: Held(s', n, g) == Held(s, n, g);
    hide Held;
    hide HeldOrLost;
    forall n, g, h | h in HeldOrLost(s, n, g) || (n == t.node && g == t.game && h in BlockHashes(blocks))
      ensures h in HeldOrLost(s', n, g)
    {
      LostOf(s, n, g, h);
      LostOf(s', n, g, h);
    }
  }

  /** More blocks, more nodes and more tasks keep ledger and runs sound. */
  lemma GrowthKeepsSound(digest: Digest, s: Sys, s': Sys)
    requires Sound(digest, s) && StoresGenuine(digest, s') && LostApart(s')
    requires s'.ledger == s.ledger && s'.runs == s.runs && s.attempts.Keys <= s'.attempts.Keys
    requires forall n :: n in s.nodes ==> n in s'.nodes && s'.nodes[n] == s.nodes[n]
    requires forall id :: id in s.tasks ==> id in s'.tasks && s'.tasks[id] == s.tasks[id]
    requires forall n, g :: HeldOrLost(s, n, g) <= HeldOrLost(s', n, g)
    ensures Sound(digest, s')
  {
    hide Held;
    hide HeldOrLost;
    forall id | id in s'.runs
      ensures RunSound(digest, s', id)
    {
      assert RunSound(digest, s, id);
    }
  }

  /** A change that leaves stores and losses alone. */
  lemma SameHoldings(s: Sys, s': Sys)
    requires s'.stores == s.stores && s'.lost == s.lost
    ensures LostApart(s) ==> LostApart(s')
    ensures forall n, g :: HeldOrLost(s', n, g) == HeldOrLost(s, n, g)
  {
    assert forall n, g :: Held(s', n, g) == Held(s, n, g);
    hide Held;
  }

  lemma RecordKeepsSound(digest: Digest, s: Sys, node: NodeId, game: GameId, hash: Hash)
    requires Sound(digest, s) && node in s.nodes && (s.nodes[node] == Idc ==> hash in HeldOrLost(s, node, game))
    ensures Sound(digest, Record(s, node, game, hash))
  {
    var s' := Record(s, node, game, hash);
    SameHoldings(s, s');
    hide Held;
    hide HeldOrLost;
    forall id | id in s'.runs
      ensures RunSound(digest, s', id)
    {
      assert RunSound(digest, s, id);
    }
  }

  lemma RunChangeKeepsSound(digest: Digest, s: Sys, id: TaskId, r: Run)
    requires Sound(digest, s) && id in s.tasks && RunSound(digest, SetRun(s, id, r), id)
    ensures Sound(digest, SetRun(s, id, r))
  {
    var s' := SetRun(s, id, r);
    SameHoldings(s, s');
    hide Held;
    hide HeldOrLost;
    forall k | k in s'.runs && k != id
      ensures RunSound(digest, s', k)
    {
      assert RunSound(digest, s, k);
    }
  }

  // One event at a time.

  lemma SinkKeepsSound(digest: Digest, s: Sys, task: TaskId, block: Block)
    requires Sound(digest, s) && Enabled(digest, s, Sink(task, block))
    ensures Sound(digest, AfterSink(s, task, block))
  {
    hide Sound;
    hide RunSound;
    hide Held;
    var r := s.runs[task];
    var pending := r.pending + [block];
    if |pending| >= IDC_BATCH_SIZE {
      FlushKeepsSound(digest, s, task, block);
    } else {
      BufferKeepsSound(digest, s, task, block);
    }
  }

  lemma BufferKeepsSound(digest: Digest, s: Sys, task: TaskId, block: Block)
    requires Sound(digest, s) && Enabled(digest, s, Sink(task, block)) && |s.runs[task].pending| + 1 < IDC_BATCH_SIZE
    ensures var r := s.runs[task];
            Sound(digest, SetRun(s, task, r.(sunk := r.sunk + {block.hash}, pending := r.pending + [block])))
  {
    assert RunSound(digest, s, task);
    var r := s.runs[task];
    BlockHashesSnoc(r.pending, block);
    hide Held;
    hide HeldOrLost;
    hide BlockHashes;
    var r' := r.(sunk := r.sunk + {block.hash}, pending := r.pending + [block]);
    SameHoldings(s, SetRun(s, task, r'));
    assert RunSound(digest, SetRun(s, task, r'), task);
    RunChangeKeepsSound(digest, s, task, r');
  }

  lemma FlushKeepsSound(digest: Digest, s: Sys, task: TaskId, block: Block)
    requires Sound(digest, s) && Enabled(digest, s, Sink(task, block))
    ensures var r := s.runs[task];
            Sound(digest, SetRun(StoreAll(s, s.tasks[task], r.pending + [block]), task,
              r.(sunk := r.sunk + {block.hash}, pending := [])))
  {
    assert RunSound(digest, s, task);
    var t, r := s.tasks[task], s.runs[task];
    var pending := r.pending + [block];
    BlockHashesSnoc(r.pending, block);
    StoreAllGrows(digest, s, t, pending);
    hide Held;
    hide HeldOrLost;
    hide Filled;
    hide BlockHashes;
    hide LostApart;
    var s1 := StoreAll(s, t, pending);
    GrowthKeepsSound(digest, s, s1);
    hide StoresGenuine;
    hide LedgerSound;
    var r' := r.(sunk := r.sunk + {block.hash}, pending := []);
    SameHoldings(s1, SetRun(s1, task, r'));
    RunChangeKeepsSound(digest, s1, task, r');
  }

  lemma FailedFlushKeepsSound(digest: Digest, s: Sys, task: TaskId, block: Block, after: Pack)
    requires Sound(digest, s) && Enabled(digest, s, FlushFails(task, block, after))
    ensures Sound(digest, Next(digest, s, FlushFails(task, block, after)))
  {
    assert RunSound(digest, s, task);
    var t, r := s.tasks[task], s.runs[task];
    var pending := r.pending + [block];
    BlockHashesSnoc(r.pending, block);
    DropGrows(digest, s, t, pending, after);
    hide Held;
    hide HeldOrLost;
    hide BlockHashes;
    hide LostApart;
    var s1 := Drop(s, t, pending, after);
    GrowthKeepsSound(digest, s, s1);
    hide StoresGenuine;
    hide LedgerSound;
    var r' := r.(pending := []);
    SameHoldings(s1, SetRun(s1, task, r'));
    RunChangeKeepsSound(digest, s1, task, r');
  }

  lemma StartKeepsSound(digest: Digest, s: Sys, task: TaskId)
    requires Sound(digest, s) && Enabled(digest, s, Start(task))
    ensures Sound(digest, Next(digest, s, Start(task)))
  {
    var t := s.tasks[task];
    var chunks := s.versions[(t.game, t.version)];
    var r := Downloading(chunks, chunks - Held(s, t.node, t.game), {}, [], false);
    var s1 := s.(attempts := s.attempts[task := Attempts(s, task) + 1]);
    SameHoldings(s, s1);
    SameHoldings(s1, SetRun(s1, task, r));
    assert r.chunks <= HeldOrLost(s, t.node, t.game) + r.missing;
    hide Held;
    hide HeldOrLost;
    GrowthKeepsSound(digest, s, s1);
    RunChangeKeepsSound(digest, s1, task, r);
  }

  lemma FinishKeepsSound(digest: Digest, s: Sys, task: TaskId)
    requires Sound(digest, s) && Enabled(digest, s, Finish(task))
    ensures Sound(digest, Next(digest, s, Finish(task)))
  {
    assert RunSound(digest, s, task);
    var t, r := s.tasks[task], s.runs[task];
    hide Held;
    hide HeldOrLost;
    hide BlockHashes;
    hide LostApart;
    StoreAllGrows(digest, s, t, r.pending);
    var s1 := StoreAll(s, t, r.pending);
    GrowthKeepsSound(digest, s, s1);
    SameHoldings(s1, SetRun(s1, task, Reporting(r.chunks, r.chunks)));
    RunChangeKeepsSound(digest, s1, task, Reporting(r.chunks, r.chunks));
  }

  lemma ReportKeepsSound(digest: Digest, s: Sys, task: TaskId, hash: Hash)
    requires Sound(digest, s) && Enabled(digest, s, Report(task, hash))
    ensures Sound(digest, Next(digest, s, Report(task, hash)))
  {
    assert RunSound(digest, s, task);
    var t, r := s.tasks[task], s.runs[task];
    var s1 := Record(s, t.node, t.game, hash);
    SameHoldings(s, s1);
    hide Held;
    hide HeldOrLost;
    RecordKeepsSound(digest, s, t.node, t.game, hash);
    SameHoldings(s1, SetRun(s1, task, Reporting(r.chunks, r.todo - {hash})));
    RunChangeKeepsSound(digest, s1, task, Reporting(r.chunks, r.todo - {hash}));
  }

  lemma AskKeepsSound(digest: Digest, s: Sys, task: TaskId, hashes: set<Hash>)
    requires Sound(digest, s) && Enabled(digest, s, AskOrigin(task, hashes))
    ensures Sound(digest, Next(digest, s, AskOrigin(task, hashes)))
  {
    assert RunSound(digest, s, task);
    var r := s.runs[task].(asked := true);
    var s1, s2 := SetRun(s, task, r), Next(digest, s, AskOrigin(task, hashes));
    SameHoldings(s, s1);
    SameHoldings(s1, s2);
    hide Held;
    hide HeldOrLost;
    RunChangeKeepsSound(digest, s, task, r);
    GrowthKeepsSound(digest, s1, s2);
  }

  /** The scheduler's own steps: nodes, versions and tasks, and nothing else. */
  predicate Calm(e: Event) {
    e.Register? || e.Publish? || e.CreateTask? || e.Rollback?
  }

  lemma RegisterIs(digest: Digest, s: Sys, id: NodeId, kind: Kind)
    requires Enabled(digest, s, Register(id, kind))
    ensures id !in s.nodes && Next(digest, s, Register(id, kind)) == s.(nodes := s.nodes[id := kind])
  {
  }

  lemma PublishIs(digest: Digest, s: Sys, game: GameId, version: Version, chunks: Option<set<Hash>>)
    requires Enabled(digest, s, Publish(game, version, chunks))
    ensures var s' := Next(digest, s, Publish(game, version, chunks));
            s' == s.(versions := s'.versions, damaged := s'.damaged)
  {
  }

  lemma CreateIs(digest: Digest, s: Sys, task: TaskId, node: NodeId, game: GameId, version: Version)
    requires Enabled(digest, s, CreateTask(task, node, game, version))
    ensures task !in s.tasks && node in s.nodes
    ensures Next(digest, s, CreateTask(task, node, game, version))
         == s.(tasks := s.tasks[task := Task(node, game, version, Duty(s, game, version, s.nodes[node]))])
  {
    hide Duty;
  }

  lemma RollbackIs(digest: Digest, s: Sys, task: TaskId, node: NodeId, game: GameId, version: Version)
    requires Enabled(digest, s, Rollback(task, node, game, version))
    ensures task !in s.tasks
    ensures Next(digest, s, Rollback(task, node, game, version))
         == s.(tasks := s.tasks[task := Task(node, game, version, {})])
  {
  }

  lemma CalmStep(digest: Digest, s: Sys, e: Event)
    requires Enabled(digest, s, e) && Calm(e)
    ensures var s' := Next(digest, s, e);
            s'.stores == s.stores && s'.lost == s.lost && s'.runs == s.runs && s'.attempts == s.attempts &&
            s'.egress == s.egress && s'.ledger == s.ledger &&
            (forall n :: n in s.nodes ==> n in s'.nodes && s'.nodes[n] == s.nodes[n]) &&
            forall id :: id in s.tasks ==> id in s'.tasks && s'.tasks[id] == s.tasks[id]
  {
    hide *;
    match e {
      case Register(id, kind) => RegisterIs(digest, s, id, kind);
      case Publish(game, version, chunks) => PublishIs(digest, s, game, version, chunks);
      case CreateTask(task, node, game, version) => CreateIs(digest, s, task, node, game, version);
      case Rollback(task, node, game, version) => RollbackIs(digest, s, task, node, game, version);
      case _ => NotCalm(e);
    }
  }

  lemma NotCalm(e: Event)
    requires !(e.Register? || e.Publish? || e.CreateTask? || e.Rollback?)
    ensures !Calm(e)
  {
  }

  // What the nodes' steps may change.

  lemma StartIs(digest: Digest, s: Sys, task: TaskId)
    requires Enabled(digest, s, Start(task))
    ensures var s' := Next(digest, s, Start(task)); s' == s.(runs := s'.runs, attempts := s'.attempts)
  {
    hide Held;
  }

  lemma SinkIs(digest: Digest, s: Sys, task: TaskId, block: Block)
    requires Enabled(digest, s, Sink(task, block))
    ensures var s' := Next(digest, s, Sink(task, block));
            s' == s.(runs := s'.runs, stores := s'.stores, lost := s'.lost)
  {
    hide Filled;
    hide Held;
    hide Marks;
    hide BlockHashes;
  }

  lemma FlushFailsIs(digest: Digest, s: Sys, task: TaskId, block: Block, after: Pack)
    requires Enabled(digest, s, FlushFails(task, block, after))
    ensures var s' := Next(digest, s, FlushFails(task, block, after));
            s' == s.(runs := s'.runs, stores := s'.stores, lost := s'.lost)
  {
    hide Held;
    hide Marks;
    hide BlockHashes;
  }

  lemma AskOriginIs(digest: Digest, s: Sys, task: TaskId, hashes: set<Hash>)
    requires Enabled(digest, s, AskOrigin(task, hashes))
    ensures var s' := Next(digest, s, AskOrigin(task, hashes)); s' == s.(runs := s'.runs, egress := s'.egress)
  {
    hide Requests;
  }

  lemma FinishIs(digest: Digest, s: Sys, task: TaskId)
    requires Enabled(digest, s, Finish(task))
    ensures var s' := Next(digest, s, Finish(task)); s' == s.(runs := s'.runs, stores := s'.stores, lost := s'.lost)
  {
    hide Filled;
    hide Held;
    hide Marks;
    hide BlockHashes;
  }

  lemma ReportIs(digest: Digest, s: Sys, task: TaskId, hash: Hash)
    requires Enabled(digest, s, Report(task, hash))
    ensures task in s.tasks
    ensures var s' := Next(digest, s, Report(task, hash));
            s' == Record(s, s.tasks[task].node, s.tasks[task].game, hash).(runs := s'.runs)
  {
    hide Record;
  }

  lemma AbortIs(digest: Digest, s: Sys, task: TaskId)
    requires Enabled(digest, s, Abort(task))
    ensures var s' := Next(digest, s, Abort(task)); s' == s.(runs := s'.runs)
  {
  }

  lemma CafeReportIs(digest: Digest, s: Sys, node: NodeId, game: GameId, hash: Hash)
    requires Enabled(digest, s, CafeReport(node, game, hash))
    ensures Next(digest, s, CafeReport(node, game, hash)) == Record(s, node, game, hash)
  {
    hide Record;
  }

  lemma RecordIs(s: Sys, node: NodeId, game: GameId, hash: Hash)
    ensures var s' := Record(s, node, game, hash); s' == s.(ledger := s'.ledger)
    ensures forall g, h :: Holders(s, g, h) <= Holders(Record(s, node, game, hash), g, h)
  {
  }

  /** The nodes change neither nodes nor tasks, and the ledger only grows. */
  lemma NodeStep(digest: Digest, s: Sys, e: Event)
    requires Enabled(digest, s, e) && !Calm(e)
    ensures var s' := Next(digest, s, e); s'.tasks == s.tasks && s'.nodes == s.nodes
    ensures forall g, h :: Holders(s, g, h) <= Holders(Next(digest, s, e), g, h)
  {
    hide *;
    match e {
      case Start(task) => StartIs(digest, s, task);
      case Sink(task, block) => SinkIs(digest, s, task, block);
      case FlushFails(task, block, after) => FlushFailsIs(digest, s, task, block, after);
      case AskOrigin(task, hashes) => AskOriginIs(digest, s, task, hashes);
      case Finish(task) => FinishIs(digest, s, task);
      case Report(task, hash) =>
        ReportIs(digest, s, task, hash);
        RecordIs(s, s.tasks[task].node, s.tasks[task].game, hash);
        SameLedger(Record(s, s.tasks[task].node, s.tasks[task].game, hash), Next(digest, s, e));
      case Abort(task) => AbortIs(digest, s, task);
      case CafeReport(node, game, hash) => CafeReportIs(digest, s, node, game, hash); RecordIs(s, node, game, hash);
      case _ => IsCalm(e);
    }
    if Next(digest, s, e).ledger == s.ledger { SameLedger(s, Next(digest, s, e)); }
  }

  lemma SameLedger(s: Sys, s': Sys)
    requires s'.ledger == s.ledger
    ensures forall g, h :: Holders(s', g, h) == Holders(s, g, h)
  {
  }

  lemma IsCalm(e: Event)
    requires e.Register? || e.Publish? || e.CreateTask? || e.Rollback?
    ensures Calm(e)
  {
  }

  lemma QuietKeepsSound(digest: Digest, s: Sys, e: Event)
    requires Sound(digest, s) && Enabled(digest, s, e) && Calm(e)
    ensures Sound(digest, Next(digest, s, e))
  {
    CalmStep(digest, s, e);
    hide Next;
    hide Enabled;
    var s' := Next(digest, s, e);
    SameHoldings(s, s');
    hide HeldOrLost;
    hide Held;
    hide LedgerSound;
    hide RunSound;
    GrowthKeepsSound(digest, s, s');
  }

  lemma AbortKeepsSound(digest: Digest, s: Sys, task: TaskId)
    requires Sound(digest, s) && Enabled(digest, s, Abort(task))
    ensures Sound(digest, Next(digest, s, Abort(task)))
  {
    SameHoldings(s, SetRun(s, task, Aborted));
    assert RunSound(digest, s, task);
    RunChangeKeepsSound(digest, s, task, Aborted);
  }

  lemma StepKeepsSound(digest: Digest, s: Sys, e: Event)
    requires Sound(digest, s) && Enabled(digest, s, e)
    ensures Sound(digest, Next(digest, s, e))
  {
    match e {
      case Start(task) => StartKeepsSound(digest, s, task);
      case Sink(task, block) => SinkKeepsSound(digest, s, task, block);
      case FlushFails(task, block, after) => FailedFlushKeepsSound(digest, s, task, block, after);
      case AskOrigin(task, hashes) => AskKeepsSound(digest, s, task, hashes);
      case Finish(task) => FinishKeepsSound(digest, s, task);
      case Report(task, hash) => ReportKeepsSound(digest, s, task, hash);
      case Abort(task) => AbortKeepsSound(digest, s, task);
      case CafeReport(node, game, hash) => RecordKeepsSound(digest, s, node, game, hash);
      case _ => QuietKeepsSound(digest, s, e);
    }
  }

  lemma {:induction false} AlwaysSound(digest: Digest, states: seq<Sys>, events: seq<Event>, i: nat)
    requires Behaviour(digest, states, events) && i < |states|
    ensures Sound(digest, states[i])
  {
    hide Sound;
    hide Next;
    hide Enabled;
    if i == 0 {
      InitSound(digest);
    } else {
      AlwaysSound(digest, states, events, i - 1);
      StepKeepsSound(digest, states[i - 1], events[i - 1]);
    }
  }

  lemma InitSound(digest: Digest)
    ensures Sound(digest, Init)
  {
  }

  /**
   * In every reachable state, an IDC node that the ledger lists for a block has it in its index if and only if no
   * failed flush of that node dropped it without a later one storing it: through missing-set computation, the
   * buffering sink, the final flush and the reports, and whatever other tasks and nodes do in between. A store of at
   * most 2^32 bytes then answers with bytes that hash to it.
   */
  lemma LedgerEntryTrueIff(digest: Digest, states: seq<Sys>, events: seq<Event>, i: nat, node: NodeId, game: GameId,
      hash: Hash)
    requires Behaviour(digest, states, events) && i < |states|
    requires node in Holders(states[i], game, hash) && node in states[i].nodes && states[i].nodes[node] == Idc
    ensures hash in Held(states[i], node, game) <==> (node, game, hash) !in states[i].lost
    ensures hash in Held(states[i], node, game) && StoreOf(states[i], node, game).size <= TWO32 ==>
      var r := ReadChunk(StoreOf(states[i], node, game), hash);
      r.Data? && digest(r.bytes) == hash
  {
    hide Behaviour;
    hide GenuineBelow;
    hide ReadChunk;
    hide EMPTY;
    AlwaysSound(digest, states, events, i);
    LostOf(states[i], node, game, hash);
    hide RunSound;
    hide HeldOrLost;
    EmptyGenuine(digest);
    var p := StoreOf(states[i], node, game);
    if hash in p.index && p.size <= TWO32 {
      ReadsGenuine(digest, p, hash);
    }
  }

  /** While no flush fails nothing is lost. */
  lemma {:induction false} NothingLost(digest: Digest, states: seq<Sys>, events: seq<Event>, i: nat)
    requires Behaviour(digest, states, events) && i < |states|
    requires forall j :: 0 <= j < i ==> !events[j].FlushFails?
    ensures states[i].lost == {}
  {
    if i > 0 {
      NothingLost(digest, states, events, i - 1);
      NoLossStep(digest, states[i - 1], events[i - 1]);
    }
  }

  lemma NoLossStep(digest: Digest, s: Sys, e: Event)
    requires Enabled(digest, s, e) && s.lost == {} && !e.FlushFails?
    ensures Next(digest, s, e).lost == {}
  {
    hide Filled;
    hide BlockHashes;
    hide Held;
    hide Holders;
    hide Duty;
    hide Marks;
    hide Requests;
    if Calm(e) {
      CalmStep(digest, s, e);
      hide Next;
    }
  }

  /** Hence, while no flush fails and stores stay within 2^32 bytes, the IDC nodes the ledger lists serve the block. */
  lemma LedgerNamesRealHolders(digest: Digest, states: seq<Sys>, events: seq<Event>, i: nat, node: NodeId, game: GameId,
      hash: Hash)
    requires Behaviour(digest, states, events) && i < |states|
    requires forall j :: 0 <= j < i ==> !events[j].FlushFails?
    requires node in Holders(states[i], game, hash) && node in states[i].nodes && states[i].nodes[node] == Idc
    ensures hash in Held(states[i], node, game)
    ensures StoreOf(states[i], node, game).size <= TWO32 ==>
      var r := ReadChunk(StoreOf(states[i], node, game), hash);
      r.Data? && digest(r.bytes) == hash
  {
    hide Behaviour;
    hide ReadChunk;
    NothingLost(digest, states, events, i);
    LedgerEntryTrueIff(digest, states, events, i, node, game, hash);
  }
}
