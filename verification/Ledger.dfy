/** What the ledger lists: exactly the nodes that reported a block, each once, in the order of their first report. */
module Ledger {
  import opened Common
  import opened Protocol
  import opened Egress
  import opened PackBatch
  import opened PackFlush

  /** The event is a report of `node` for the block. */
  ghost predicate Reports(s: Sys, e: Event, node: NodeId, game: GameId, hash: Hash) {
    match e
    case Report(task, h) => task in s.tasks && s.tasks[task].node == node && s.tasks[task].game == game && h == hash
    case CafeReport(n, g, h) => n == node && g == game && h == hash
    case _ => false
  }

  lemma RecordExact(s: Sys, node: NodeId, g: GameId, h: Hash, game: GameId, hash: Hash)
    ensures Holders(Record(s, node, g, h), game, hash)
         == Holders(s, game, hash) + if g == game && h == hash && node !in Holders(s, game, hash) then [node] else []
    ensures node in Holders(s, g, h) ==> Record(s, node, g, h) == s
  {
  }

  /** One event adds its reporter, unless already there, and nobody else. */
  lemma ReportStep(digest: Digest, s: Sys, e: Event, game: GameId, hash: Hash)
    requires Enabled(digest, s, e)
    ensures var before, after := Holders(s, game, hash), Holders(Next(digest, s, e), game, hash);
            after == before + if exists n :: Reports(s, e, n, game, hash) && n !in before
                              then [NewReporter(s, e, game, hash)] else []
    ensures forall n :: Reports(s, e, n, game, hash) ==> n == NewReporter(s, e, game, hash)
    ensures forall n :: Reports(s, e, n, game, hash) && n in Holders(s, game, hash) ==>
      Next(digest, s, e).ledger == s.ledger
  {
    hide Enabled;
    hide Next;
    hide Record;
    hide Holders;
    match e {
      case Report(task, h) =>
        ReportIs(digest, s, task, h);
        var t := s.tasks[task];
        RecordExact(s, t.node, t.game, h, game, hash);
        SameLedger(Record(s, t.node, t.game, h), Next(digest, s, e));
        assert t.game == game && h == hash ==> Reports(s, e, t.node, game, hash);
      case CafeReport(node, g, h) =>
        CafeReportIs(digest, s, node, g, h);
        RecordExact(s, node, g, h, game, hash);
        assert g == game && h == hash ==> Reports(s, e, node, game, hash);
      case _ => OtherEvents(digest, s, e, game, hash);
    }
  }

  ghost function NewReporter(s: Sys, e: Event, game: GameId, hash: Hash): NodeId {
    match e
    case Report(task, _) => if task in s.tasks then s.tasks[task].node else 0
    case CafeReport(node, _, _) => node
    case _ => 0
  }

  lemma OtherEvents(digest: Digest, s: Sys, e: Event, game: GameId, hash: Hash)
    requires Enabled(digest, s, e) && !e.Report? && !e.CafeReport?
    ensures Holders(Next(digest, s, e), game, hash) == Holders(s, game, hash)
  {
    hide *;
    if Calm(e) {
      CalmStep(digest, s, e);
    } else {
      match e {
        case Start(task) => StartIs(digest, s, task);
        case Sink(task, block) => SinkIs(digest, s, task, block);
        case FlushFails(task, block, after) => FlushFailsIs(digest, s, task, block, after);
        case AskOrigin(task, hashes) => AskOriginIs(digest, s, task, hashes);
        case Finish(task) => FinishIs(digest, s, task);
        case Abort(task) => AbortIs(digest, s, task);
        case _ => IsCalm(e);
      }
    }
    SameLedger(s, Next(digest, s, e));
  }

  /**
   * In every reachable state the holders of a block are without repetition, and a node is one of them if and only if
   * it reported the block before.
   */
  lemma {:induction false} HoldersAreReporters(digest: Digest, states: seq<Sys>, events: seq<Event>, i: nat,
      game: GameId, hash: Hash)
    requires Behaviour(digest, states, events) && i < |states|
    ensures Distinct(Holders(states[i], game, hash))
    ensures forall n :: n in Holders(states[i], game, hash) <==>
      exists k :: 0 <= k < i && Reports(states[k], events[k], n, game, hash)
  {
    hide Next;
    hide Enabled;
    hide Reports;
    hide NewReporter;
    if i == 0 {
      NoHolders(game, hash);
    } else {
      HoldersAreReporters(digest, states, events, i - 1, game, hash);
      ReportStep(digest, states[i - 1], events[i - 1], game, hash);
      hide Holders;
    }
  }

  lemma NoHolders(game: GameId, hash: Hash)
    ensures Holders(Init, game, hash) == []
  {
  }

  /** Reporting a block again changes nothing in the ledger. */
  lemma RepeatedReportQuiet(digest: Digest, states: seq<Sys>, events: seq<Event>, k: nat, i: nat, node: NodeId,
      game: GameId, hash: Hash)
    requires Behaviour(digest, states, events) && k < i < |events|
    requires Reports(states[k], events[k], node, game, hash) && Reports(states[i], events[i], node, game, hash)
    ensures states[i + 1].ledger == states[i].ledger
  {
    hide Next;
    hide Enabled;
    hide Reports;
    hide NewReporter;
    HoldersAreReporters(digest, states, events, i, game, hash);
    ReportStep(digest, states[i], events[i], game, hash);
  }

  /** Holders stand in the order of their first reports. */
  lemma FirstReportOrder(digest: Digest, states: seq<Sys>, events: seq<Event>, i: nat, k: nat, a: NodeId, b: NodeId,
      game: GameId, hash: Hash)
    requires Behaviour(digest, states, events) && k <= i < |states|
    requires a in Holders(states[k], game, hash) && b !in Holders(states[k], game, hash)
    requires b in Holders(states[i], game, hash)
    ensures exists x, y ::
      0 <= x < y < |Holders(states[i], game, hash)| &&
      Holders(states[i], game, hash)[x] == a && Holders(states[i], game, hash)[y] == b
  {
    hide Holders;
    HoldersStay(digest, states, events, k, i, game, hash);
    var x :| 0 <= x < |Holders(states[k], game, hash)| && Holders(states[k], game, hash)[x] == a;
    var y :| 0 <= y < |Holders(states[i], game, hash)| && Holders(states[i], game, hash)[y] == b;
  }

  // ---------- a run that has reported everything ----------

  /** Of a reporting run every block that is not still to be reported is listed for its node. */
  ghost predicate Listed(s: Sys, id: TaskId) {
    id in s.runs && s.runs[id].Reporting? && id in s.tasks ==>
      forall h :: h in s.runs[id].chunks && h !in s.runs[id].todo ==>
        s.tasks[id].node in Holders(s, s.tasks[id].game, h)
  }

  lemma ListedStep(digest: Digest, s: Sys, e: Event, id: TaskId)
    requires Enabled(digest, s, e) && Listed(s, id) && (id in s.runs ==> id in s.tasks)
    ensures Listed(Next(digest, s, e), id)
  {
    var s' := Next(digest, s, e);
    if id in s.tasks { TaskStep(digest, s, e, id); }
    RunStep(digest, s, e, id);
    hide Next;
    hide Enabled;
    hide Holders;
    if id in s'.runs && s'.runs[id].Reporting? && id in s.tasks {
      forall h | h in s'.runs[id].chunks && h !in s'.runs[id].todo
        ensures s'.tasks[id].node in Holders(s', s'.tasks[id].game, h)
      {
        HoldersStep(digest, s, e, s.tasks[id].game, h);
        if h in s.runs[id].todo || !s.runs[id].Reporting? {
          assert e == Report(id, h);
          assert Reports(s, e, s.tasks[id].node, s.tasks[id].game, h);
          ReportStep(digest, s, e, s.tasks[id].game, h);
        }
      }
    }
  }

  /** How an event moves a run that reports afterwards. */
  lemma RunStep(digest: Digest, s: Sys, e: Event, id: TaskId)
    requires Enabled(digest, s, e) && (id in s.runs ==> id in s.tasks)
    ensures var s' := Next(digest, s, e);
            id in s'.runs && s'.runs[id].Reporting? ==>
              id in s.runs && id in s.tasks &&
              ((e == Finish(id) && s'.runs[id].todo == s'.runs[id].chunks) ||
               (s.runs[id].Reporting? && s'.runs[id].chunks == s.runs[id].chunks &&
                (s'.runs[id].todo == s.runs[id].todo ||
                 exists h :: e == Report(id, h) && s'.runs[id].todo == s.runs[id].todo - {h})))
  {
    hide Next;
    hide Enabled;
    hide Held;
    RunMove(digest, s, e, id);
  }

  /** What an event makes of a run. */
  ghost predicate Moved(s: Sys, s': Sys, e: Event, id: TaskId) {
    (id !in s'.runs && id !in s.runs) ||
    (id in s'.runs && id in s.runs && s'.runs[id] == s.runs[id]) ||
    (id in s'.runs && match e
     case Start(task) =>
       task == id && id in s.tasks && (s.tasks[id].game, s.tasks[id].version) in s.versions &&
       var chunks := s.versions[(s.tasks[id].game, s.tasks[id].version)];
       s'.runs[id] == Downloading(chunks, chunks - Held(s, s.tasks[id].node, s.tasks[id].game), {}, [], false)
     case Finish(task) =>
       task == id && id in s.runs && s.runs[id].Downloading? &&
       s'.runs[id] == Reporting(s.runs[id].chunks, s.runs[id].chunks)
     case Report(task, h) =>
       task == id && id in s.runs && s.runs[id].Reporting? &&
       s'.runs[id] == Reporting(s.runs[id].chunks, s.runs[id].todo - {h})
     case Abort(_) => s'.runs[id] == Aborted
     case _ =>
       id in s.runs && s.runs[id].Downloading? && s'.runs[id].Downloading? &&
       s'.runs[id].chunks == s.runs[id].chunks && s'.runs[id].missing == s.runs[id].missing)
  }

  lemma RunMove(digest: Digest, s: Sys, e: Event, id: TaskId)
    requires Enabled(digest, s, e)
    ensures Moved(s, Next(digest, s, e), e, id)
  {
    if Calm(e) {
      CalmStep(digest, s, e);
      hide Next;
      hide Enabled;
    } else if e.Sink? {
      SinkMoved(digest, s, e.task, e.block, id);
      hide *;
      assert e == Sink(e.task, e.block);
    } else {
      hide Held;
      hide Holders;
      hide Filled;
      hide BlockHashes;
      hide Marks;
      hide Requests;
    }
  }

  lemma SinkMoved(digest: Digest, s: Sys, task: TaskId, block: Block, id: TaskId)
    requires Enabled(digest, s, Sink(task, block))
    ensures Moved(s, Next(digest, s, Sink(task, block)), Sink(task, block), id)
  {
    hide Held;
    hide Filled;
    hide BlockHashes;
    hide Marks;
  }

  lemma {:induction false} AlwaysListed(digest: Digest, states: seq<Sys>, events: seq<Event>, i: nat, id: TaskId)
    requires Behaviour(digest, states, events) && i < |states|
    ensures Listed(states[i], id)
  {
    hide Next;
    hide Enabled;
    hide Holders;
    if i > 0 {
      AlwaysListed(digest, states, events, i - 1, id);
      RunsHaveTasks(digest, states, events, i - 1, id);
      hide Listed;
      ListedStep(digest, states[i - 1], events[i - 1], id);
    }
  }

  lemma RunsHaveTasks(digest: Digest, states: seq<Sys>, events: seq<Event>, i: nat, id: TaskId)
    requires Behaviour(digest, states, events) && i < |states|
    ensures id in states[i].runs ==> id in states[i].tasks && id in states[i].attempts
  {
    hide Behaviour;
    hide HeldOrLost;
    hide StoresGenuine;
    hide LostApart;
    hide LedgerSound;
    AlwaysSound(digest, states, events, i);
    assert id in states[i].runs ==> RunSound(digest, states[i], id);
  }

  /** The run was begun by the `Start` of state `s` and is about the version, and lacks the blocks, of that moment. */
  ghost predicate BegunAt(s: Sys, e: Event, id: TaskId, r: Run) {
    e == Start(id) && id in s.tasks && (s.tasks[id].game, s.tasks[id].version) in s.versions &&
    var chunks := s.versions[(s.tasks[id].game, s.tasks[id].version)];
    match r
    case Downloading(all, missing, _, _, _) =>
      all == chunks && forall h :: h in missing <==> h in chunks && h !in Held(s, s.tasks[id].node, s.tasks[id].game)
    case Reporting(all, _) => all == chunks
    case Aborted => true
  }

  lemma BeginStep(digest: Digest, s: Sys, e: Event, id: TaskId)
    requires Enabled(digest, s, e) && (id in s.runs ==> id in s.tasks)
    ensures var s' := Next(digest, s, e);
            id in s'.runs && !s'.runs[id].Aborted? ==>
              BegunAt(s, e, id, s'.runs[id]) ||
              (id in s.runs && match s'.runs[id]
               case Downloading(chunks, missing, _, _, _) =>
                 s.runs[id].Downloading? && s.runs[id].chunks == chunks && s.runs[id].missing == missing
               case Reporting(chunks, _) => !s.runs[id].Aborted? && s.runs[id].chunks == chunks
               case Aborted => true)
  {
    hide Next;
    hide Enabled;
    hide Held;
    RunMove(digest, s, e, id);
  }

  /** Every run goes back to a start. */
  lemma {:induction false} RunHasStart(digest: Digest, states: seq<Sys>, events: seq<Event>, i: nat, id: TaskId)
    returns (j: nat)
    requires Behaviour(digest, states, events) && i < |states|
    requires id in states[i].runs && !states[i].runs[id].Aborted?
    ensures j < i && BegunAt(states[j], events[j], id, states[i].runs[id])
  {
    hide Next;
    hide Enabled;
    hide Held;
    RunsHaveTasks(digest, states, events, i - 1, id);
    BeginStep(digest, states[i - 1], events[i - 1], id);
    if BegunAt(states[i - 1], events[i - 1], id, states[i].runs[id]) {
      j := i - 1;
    } else {
      j := RunHasStart(digest, states, events, i - 1, id);
    }
  }

  /** A run that has nothing left to report is listed for every block its version had when it started. */
  lemma ReportedRunListed(digest: Digest, states: seq<Sys>, events: seq<Event>, i: nat, id: TaskId) returns (j: nat)
    requires Behaviour(digest, states, events) && i < |states|
    requires id in states[i].runs && states[i].runs[id].Reporting? && states[i].runs[id].todo == {}
    ensures j < i && events[j] == Start(id) && id in states[j].tasks && id in states[i].tasks
    ensures var t := states[i].tasks[id];
            t == states[j].tasks[id] && (t.game, t.version) in states[j].versions &&
            forall h :: h in states[j].versions[(t.game, t.version)] ==> t.node in Holders(states[i], t.game, h)
  {
    hide Holders;
    hide Next;
    hide Enabled;
    j := RunHasStart(digest, states, events, i, id);
    RunsHaveTasks(digest, states, events, i, id);
    AlwaysListed(digest, states, events, i, id);
    TasksStay(digest, states, events, j, i, id);
  }

  /** What the origin is asked for, the node lacked when it started the run. */
  lemma AskedWasMissing(digest: Digest, states: seq<Sys>, events: seq<Event>, i: nat, id: TaskId, hashes: set<Hash>)
    returns (j: nat)
    requires Behaviour(digest, states, events) && i < |events| && events[i] == AskOrigin(id, hashes)
    ensures j < i && events[j] == Start(id) && id in states[j].tasks
    ensures var t := states[j].tasks[id];
            (t.game, t.version) in states[j].versions &&
            hashes <= t.duty * states[j].versions[(t.game, t.version)] - Held(states[j], t.node, t.game)
  {
    hide Next;
    hide Held;
    assert Enabled(digest, states[i], events[i]);
    j := RunHasStart(digest, states, events, i, id);
    hide Enabled;
    TasksStay(digest, states, events, j, i, id);
  }

  // ---------- published versions ----------

  lemma OnlyPublishPublishes(digest: Digest, s: Sys, e: Event)
    requires Enabled(digest, s, e) && !e.Publish?
    ensures Next(digest, s, e).versions == s.versions && Next(digest, s, e).damaged == s.damaged
  {
    hide *;
    match e {
      case Register(id, kind) => RegisterIs(digest, s, id, kind);
      case CreateTask(task, node, game, version) => CreateIs(digest, s, task, node, game, version);
      case Rollback(task, node, game, version) => RollbackIs(digest, s, task, node, game, version);
      case Start(task) => StartIs(digest, s, task);
      case Sink(task, block) => SinkIs(digest, s, task, block);
      case FlushFails(task, block, after) => FlushFailsIs(digest, s, task, block, after);
      case AskOrigin(task, hashes) => AskOriginIs(digest, s, task, hashes);
      case Finish(task) => FinishIs(digest, s, task);
      case Report(task, hash) =>
        ReportIs(digest, s, task, hash);
        RecordIs(s, s.tasks[task].node, s.tasks[task].game, hash);
      case Abort(task) => AbortIs(digest, s, task);
      case CafeReport(node, game, hash) => CafeReportIs(digest, s, node, game, hash); RecordIs(s, node, game, hash);
    }
  }

  lemma PublishTables(digest: Digest, s: Sys, g: GameId, v: Version, chunks: Option<set<Hash>>, game: GameId,
      version: Version)
    requires Enabled(digest, s, Publish(g, v, chunks))
    ensures var s' := Next(digest, s, Publish(g, v, chunks));
            if g == game && v == version then
              ((game, version) in s'.damaged <==> chunks.None?) && ((game, version) in s'.versions <==> chunks.Some?) &&
              (chunks.Some? ==> s'.versions[(game, version)] == chunks.value)
            else
              ((game, version) in s'.damaged <==> (game, version) in s.damaged) &&
              ((game, version) in s'.versions <==> (game, version) in s.versions) &&
              ((game, version) in s.versions ==> s'.versions[(game, version)] == s.versions[(game, version)])
  {
    hide Enabled;
  }

  /** The last manifest published for a version counts: its blocks, or that it is damaged. */
  lemma {:induction false} LatestPublishCounts(digest: Digest, states: seq<Sys>, events: seq<Event>, i: nat, k: nat,
      game: GameId, version: Version, chunks: Option<set<Hash>>)
    requires Behaviour(digest, states, events) && k < i < |states| && events[k] == Publish(game, version, chunks)
    requires forall j, c :: k < j < i ==> events[j] != Publish(game, version, c)
    ensures (game, version) in states[i].damaged <==> chunks.None?
    ensures (game, version) in states[i].versions <==> chunks.Some?
    ensures chunks.Some? ==> states[i].versions[(game, version)] == chunks.value
  {
    hide Enabled;
    hide Next;
    var s, e := states[i - 1], events[i - 1];
    assert states[i] == Next(digest, s, e);
    if k < i - 1 {
      LatestPublishCounts(digest, states, events, i - 1, k, game, version, chunks);
      if !e.Publish? {
        OnlyPublishPublishes(digest, s, e);
      } else {
        assert e != Publish(game, version, e.chunks);
        PublishTables(digest, s, e.game, e.version, e.chunks, game, version);
      }
    } else {
      PublishTables(digest, s, game, version, chunks, game, version);
    }
  }
}
