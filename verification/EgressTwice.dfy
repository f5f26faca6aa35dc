/** Tasks that share a block on their duties can all take it from the origin. */
module EgressTwice {
  import opened Common
  import opened PackStore
  import opened PackBatch
  import opened PackFlush
  import opened Protocol
  import opened Egress
  import opened IdcRun

  /** The authentic bytes of every block of the task's version can be had, and its node lacks `hash`. */
  ghost predicate Fetchable(digest: Digest, s: Sys, k: TaskId, hash: Hash, lib: map<Hash, Bytes>) {
    k in s.tasks && s.tasks[k].node in s.nodes && s.nodes[s.tasks[k].node] == Idc &&
    (s.tasks[k].game, s.tasks[k].version) in s.versions && hash in s.versions[(s.tasks[k].game, s.tasks[k].version)] &&
    hash !in Held(s, s.tasks[k].node, s.tasks[k].game) &&
    forall h :: h in s.versions[(s.tasks[k].game, s.tasks[k].version)] ==>
      h in lib && digest(lib[h]) == h && |lib[h]| < TWO32
  }

  /** A stretch of a run that leaves `hash` out of the stores, and tasks, nodes and versions alone. */
  ghost predicate Around(s: Sys, s': Sys, hash: Hash) {
    s'.tasks == s.tasks && s'.nodes == s.nodes && s'.versions == s.versions && s.egress <= s'.egress &&
    forall n, g :: hash in Held(s', n, g) <==> hash in Held(s, n, g)
  }

  lemma StillFetchable(digest: Digest, s: Sys, s': Sys, k: TaskId, hash: Hash, lib: map<Hash, Bytes>)
    requires Fetchable(digest, s, k, hash, lib) && Around(s, s', hash)
    ensures Fetchable(digest, s', k, hash, lib)
  {
    hide Held;
  }

  /** The run of a task that is about to ask. */
  ghost predicate Fetching(s: Sys, k: TaskId, hash: Hash) {
    InRun(s, k) && k in s.attempts && s.runs[k].Downloading? && !s.runs[k].asked && hash in s.runs[k].missing &&
    hash !in BlockHashes(s.runs[k].pending)
  }

  lemma StoreAllHeld(s: Sys, t: Task, blocks: seq<Block>, hash: Hash)
    requires hash !in BlockHashes(blocks)
    ensures forall n, g :: hash in Held(StoreAll(s, t, blocks), n, g) <==> hash in Held(s, n, g)
  {
    FlushKeys(StoreOf(s, t.node, t.game), blocks);
    hide BatchPack;
    hide BlockHashes;
    hide EMPTY;
    hide Marks;
  }

  lemma SameHeld(s: Sys, s': Sys)
    requires s'.stores == s.stores
    ensures forall n, g :: Held(s', n, g) == Held(s, n, g)
  {
  }

  lemma SinkAround(digest: Digest, s: Sys, k: TaskId, hash: Hash, b: Block)
    requires Fetching(s, k, hash) && Offered(digest, s, k, b) && b.hash != hash
    ensures Enabled(digest, s, Sink(k, b))
    ensures var s' := Next(digest, s, Sink(k, b));
            Around(s, s', hash) && Fetching(s', k, hash) && s'.runs[k].missing == s.runs[k].missing &&
            s'.runs[k].sunk == s.runs[k].sunk + {b.hash}
  {
    var r, t := s.runs[k], s.tasks[k];
    BlockHashesSnoc(r.pending, b);
    assert BlockHashes([]) == {};
    hide BlockHashes;
    assert Next(digest, s, Sink(k, b)) == AfterSink(s, k, b);
    hide Next;
    hide Filled;
    hide Held;
    hide Marks;
    var s' := AfterSink(s, k, b);
    if |r.pending + [b]| >= IDC_BATCH_SIZE {
      StoreAllHeld(s, t, r.pending + [b], hash);
      SameHeld(StoreAll(s, t, r.pending + [b]), s');
    } else {
      SameHeld(s, s');
    }
  }

  /** Sink every block of `todo`. */
  lemma {:induction false} SinkAll(digest: Digest, states: seq<Sys>, events: seq<Event>, k: TaskId, hash: Hash,
      todo: set<Hash>, lib: map<Hash, Bytes>)
    returns (states': seq<Sys>, events': seq<Event>)
    requires Behaviour(digest, states, events) && Fetching(states[|events|], k, hash) && hash !in todo
    requires todo <= states[|events|].runs[k].missing
    requires forall h :: h in todo ==> h in lib && digest(lib[h]) == h && |lib[h]| < TWO32
    ensures Behaviour(digest, states', events') && states <= states' && events <= events' && |states'| == |events'| + 1
    ensures var s, s' := states[|events|], states'[|events'|];
            Around(s, s', hash) && Fetching(s', k, hash) && s'.runs[k].missing == s.runs[k].missing &&
            s.runs[k].sunk + todo <= s'.runs[k].sunk
    decreases todo
  {
    assert |states| == |events| + 1;
    hide *;
    var s := states[|events|];
    if todo == {} {
      AroundSelf(s, hash);
      states', events' := states, events;
    } else {
      var h: Hash :| h in todo;
      var b := Block(h, lib[h]);
      assert Offered(digest, s, k, b) by { IsOffered(digest, s, k, hash, b); }
      SinkAround(digest, s, k, hash, b);
      var states1, events1 := Then(digest, states, events, Sink(k, b));
      states', events' := SinkAll(digest, states1, events1, k, hash, todo - {h}, lib);
      AroundChain(s, states1[|events1|], states'[|events'|], hash);
    }
  }

  lemma IsOffered(digest: Digest, s: Sys, k: TaskId, hash: Hash, b: Block)
    requires Fetching(s, k, hash) && b.hash in s.runs[k].missing && digest(b.data) == b.hash && |b.data| < TWO32
    ensures Offered(digest, s, k, b)
  {
  }

  lemma AroundSelf(s: Sys, hash: Hash)
    ensures Around(s, s, hash)
  {
  }

  lemma AroundChain(a: Sys, b: Sys, c: Sys, hash: Hash)
    requires Around(a, b, hash) && Around(b, c, hash)
    ensures Around(a, c, hash)
  {
    hide Held;
  }

  lemma AbortAround(digest: Digest, s: Sys, k: TaskId, hash: Hash)
    requires InRun(s, k)
    ensures Enabled(digest, s, Abort(k))
    ensures Around(s, Next(digest, s, Abort(k)), hash)
    ensures var s' := Next(digest, s, Abort(k)); k in s'.runs && s'.runs[k].Aborted?
  {
  }

  lemma StartAround(digest: Digest, s: Sys, k: TaskId, hash: Hash, lib: map<Hash, Bytes>)
    requires Fetchable(digest, s, k, hash, lib) && (k in s.runs ==> s.runs[k].Aborted?)
    ensures Enabled(digest, s, Start(k))
    ensures var s' := Next(digest, s, Start(k));
            Around(s, s', hash) && Fetching(s', k, hash) && k in s'.runs && s'.runs[k].Downloading? &&
            s'.runs[k].missing <= s.versions[(s.tasks[k].game, s.tasks[k].version)]
  {
    var s' := Next(digest, s, Start(k));
    assert forall n, g :: Held(s', n, g) == Held(s, n, g);
    assert BlockHashes([]) == {};
    hide Held;
    hide BlockHashes;
  }

  lemma AskAround(digest: Digest, s: Sys, k: TaskId, hash: Hash)
    requires Fetching(s, k, hash) && hash in s.tasks[k].duty && s.runs[k].missing - s.tasks[k].duty <= s.runs[k].sunk
    ensures Enabled(digest, s, AskOrigin(k, {hash}))
    ensures var s' := Next(digest, s, AskOrigin(k, {hash}));
            Around(s, s', hash) && (k, s.attempts[k], hash) in s'.egress
  {
    var s' := Next(digest, s, AskOrigin(k, {hash}));
    assert forall n, g :: Held(s', n, g) == Held(s, n, g);
    hide Held;
    hide BlockHashes;
  }

  /** A task with the block on its duty can be brought to take it from the origin. */
  lemma OneRequest(digest: Digest, states: seq<Sys>, events: seq<Event>, k: TaskId, hash: Hash, lib: map<Hash, Bytes>)
    returns (states': seq<Sys>, events': seq<Event>, attempt: nat)
    requires Behaviour(digest, states, events) && Fetchable(digest, states[|events|], k, hash, lib)
    requires hash in states[|events|].tasks[k].duty
    ensures Behaviour(digest, states', events') && states <= states' && events <= events' && |states'| == |events'| + 1
    ensures Around(states[|events|], states'[|events'|], hash) && (k, attempt, hash) in states'[|events'|].egress
  {
    assert |states| == |events| + 1;
    hide *;
    var s := states[|events|];
    states', events' := states, events;
    AroundSelf(s, hash);
    if k in s.runs && !s.runs[k].Aborted? {
      assert InRun(s, k) by { TaskInRun(digest, s, k, hash, lib); }
      AbortAround(digest, s, k, hash);
      states', events' := Then(digest, states', events', Abort(k));
    }
    var s1 := states'[|events'|];
    StillFetchable(digest, s, s1, k, hash, lib);
    SameTask(digest, s, s1, k, hash, lib);
    StartAround(digest, s1, k, hash, lib);
    states', events' := Then(digest, states', events', Start(k));
    var s2 := states'[|events'|];
    var duty := s.tasks[k].duty;
    BlocksKnown(digest, s1, k, hash, lib);
    states', events' := SinkAll(digest, states', events', k, hash, s2.runs[k].missing - duty, lib);
    var s3 := states'[|events'|];
    AroundChain(s, s1, s2, hash);
    AroundChain(s, s2, s3, hash);
    assert s3.tasks == s.tasks by { AroundTasks(s, s3, hash); }
    AskAround(digest, s3, k, hash);
    attempt := s3.attempts[k];
    states', events' := Then(digest, states', events', AskOrigin(k, {hash}));
    AroundChain(s, s3, states'[|events'|], hash);
  }

  lemma TaskInRun(digest: Digest, s: Sys, k: TaskId, hash: Hash, lib: map<Hash, Bytes>)
    requires Fetchable(digest, s, k, hash, lib) && k in s.runs
    ensures InRun(s, k)
  {
  }

  lemma AroundTasks(s: Sys, s': Sys, hash: Hash)
    requires Around(s, s', hash)
    ensures s'.tasks == s.tasks && s.egress <= s'.egress
  {
  }

  lemma SameTask(digest: Digest, s: Sys, s': Sys, k: TaskId, hash: Hash, lib: map<Hash, Bytes>)
    requires Fetchable(digest, s, k, hash, lib) && Around(s, s', hash)
    ensures k in s.tasks && s'.tasks == s.tasks
  {
  }

  lemma BlocksKnown(digest: Digest, s: Sys, k: TaskId, hash: Hash, lib: map<Hash, Bytes>)
    requires Fetchable(digest, s, k, hash, lib)
    ensures k in s.tasks && (s.tasks[k].game, s.tasks[k].version) in s.versions
    ensures forall h :: h in s.versions[(s.tasks[k].game, s.tasks[k].version)] ==>
      h in lib && digest(lib[h]) == h && |lib[h]| < TWO32
  {
  }

  /**
   * The converse of `OriginAskedOnce`: without the handover, that is, when two tasks for versions with the block were
   * created before a holder of it was reported, every run goes on to one in which the origin is asked for it twice, as
   * long as the nodes still lack it and the versions are still published.
   */
  lemma AskedTwiceUnlessHandedOver(digest: Digest, states: seq<Sys>, events: seq<Event>, game: GameId, hash: Hash,
      lib: map<Hash, Bytes>)
    returns (states': seq<Sys>, events': seq<Event>, k1: TaskId, a1: nat, k2: TaskId, a2: nat)
    requires Behaviour(digest, states, events) && !HandedOver(states, events, |events|, game, hash)
    requires forall k :: OnDuty(states[|events|], k, game, hash) ==> Fetchable(digest, states[|events|], k, hash, lib)
    ensures Behaviour(digest, states', events') && states <= states' && events <= events' && k1 != k2
    ensures (k1, a1, hash) in states'[|events'|].egress && (k2, a2, hash) in states'[|events'|].egress
  {
    k1, k2 := SharedDuty(digest, states, events, game, hash);
    assert |states| == |events| + 1;
    hide *;
    var s := states[|events|];
    states', events', a1 := OneRequest(digest, states, events, k1, hash, lib);
    var s1 := states'[|events'|];
    StillFetchable(digest, s, s1, k2, hash, lib);
    AroundTasks(s, s1, hash);
    states', events', a2 := OneRequest(digest, states', events', k2, hash, lib);
    AroundTasks(s1, states'[|events'|], hash);
  }

  ghost predicate OnDuty(s: Sys, k: TaskId, game: GameId, hash: Hash) {
    k in s.tasks && s.tasks[k].game == game && hash in s.tasks[k].duty
  }

  /** Two different tasks with the block on their duties. */
  lemma SharedDuty(digest: Digest, states: seq<Sys>, events: seq<Event>, game: GameId, hash: Hash)
    returns (k1: TaskId, k2: TaskId)
    requires Behaviour(digest, states, events) && !HandedOver(states, events, |events|, game, hash)
    ensures var s := states[|events|];
            k1 != k2 && OnDuty(s, k1, game, hash) && OnDuty(s, k2, game, hash) &&
            hash in s.tasks[k1].duty && hash in s.tasks[k2].duty
  {
    hide Holders;
    var j, l :| 0 <= j < l < |events| && IsFor(states[j], events[j], game, hash) &&
                IsFor(states[l], events[l], game, hash) && Holders(states[l], game, hash) == [];
    k1, k2 := events[j].task, events[l].task;
    BothAssignedIff(digest, states, events, j, l, hash);
    Created(digest, states, events, j);
    Created(digest, states, events, l);
    TasksStay(digest, states, events, j + 1, l, k1);
    TasksStay(digest, states, events, j + 1, |events|, k1);
    TasksStay(digest, states, events, l + 1, |events|, k2);
    TasksStay(digest, states, events, j + 1, l + 1, k1);
  }

  lemma Created(digest: Digest, states: seq<Sys>, events: seq<Event>, j: nat)
    requires Behaviour(digest, states, events) && j < |events| && events[j].CreateTask?
    ensures events[j].task !in states[j].tasks && events[j].task in states[j + 1].tasks
    ensures states[j + 1].tasks[events[j].task].game == events[j].game
  {
    assert Enabled(digest, states[j], events[j]);
    var e := events[j];
    CreateIs(digest, states[j], e.task, e.node, e.game, e.version);
    hide Next;
    hide Enabled;
  }
}
