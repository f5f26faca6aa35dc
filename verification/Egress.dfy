/** What the origin is asked for, over every run of the system. */
module Egress {
  import opened Common
  import opened Protocol

  lemma HoldersStep(digest: Digest, s: Sys, e: Event, game: GameId, hash: Hash)
    requires Enabled(digest, s, e)
    ensures Holders(s, game, hash) <= Holders(Next(digest, s, e), game, hash)
  {
    hide *;
    if Calm(e) {
      CalmStep(digest, s, e);
      SameLedger(s, Next(digest, s, e));
    } else {
      NodeStep(digest, s, e);
    }
  }

  /** The ledger never forgets a holder. */
  lemma {:induction false} HoldersStay(digest: Digest, states: seq<Sys>, events: seq<Event>, i: nat, j: nat,
      game: GameId, hash: Hash)
    requires Behaviour(digest, states, events) && i <= j < |states|
    ensures Holders(states[i], game, hash) <= Holders(states[j], game, hash)
  {
    hide Next;
    hide Enabled;
    if i < j {
      HoldersStay(digest, states, events, i, j - 1, game, hash);
      HoldersStep(digest, states[j - 1], events[j - 1], game, hash);
    }
  }

  lemma TaskStep(digest: Digest, s: Sys, e: Event, id: TaskId)
    requires Enabled(digest, s, e) && id in s.tasks
    ensures id in Next(digest, s, e).tasks && Next(digest, s, e).tasks[id] == s.tasks[id]
  {
    if Calm(e) {
      CalmStep(digest, s, e);
    } else {
      NodeStep(digest, s, e);
    }
    hide Next;
    hide Enabled;
  }

  lemma {:induction false} TasksStay(digest: Digest, states: seq<Sys>, events: seq<Event>, i: nat, j: nat, id: TaskId)
    requires Behaviour(digest, states, events) && i <= j < |states| && id in states[i].tasks
    ensures id in states[j].tasks && states[j].tasks[id] == states[i].tasks[id]
  {
    hide Next;
    hide Enabled;
    if i < j {
      TasksStay(digest, states, events, i, j - 1, id);
      TaskStep(digest, states[j - 1], events[j - 1], id);
    }
  }

  /**
   * The bookkeeping of origin requests: every one is for a block on the duty of its task, under an attempt that was
   * started, and an attempt that has not asked yet has no request.
   */
  ghost predicate Counted(s: Sys) {
    (forall k, a, h :: (k, a, h) in s.egress ==> k in s.tasks && h in s.tasks[k].duty && 1 <= a <= Attempts(s, k)) &&
    (forall k :: k in s.runs ==> k in s.tasks && Attempts(s, k) >= 1) &&
    forall k, h :: k in s.runs && s.runs[k].Downloading? && !s.runs[k].asked ==> (k, Attempts(s, k), h) !in s.egress
  }

  lemma CountedQuiet(s: Sys, s': Sys)
    requires Counted(s) && s'.egress == s.egress && s'.attempts == s.attempts
    requires forall k :: k in s.tasks ==> k in s'.tasks && s'.tasks[k] == s.tasks[k]
    requires forall k :: k in s'.runs ==> k in s.runs
    requires forall k :: k in s'.runs && s'.runs[k].Downloading? && !s'.runs[k].asked ==>
      s.runs[k].Downloading? && !s.runs[k].asked
    ensures Counted(s')
  {
  }

  lemma CountedStart(digest: Digest, s: Sys, task: TaskId)
    requires Enabled(digest, s, Start(task)) && Counted(s)
    ensures Counted(Next(digest, s, Start(task)))
  {
    hide Held;
    var s' := Next(digest, s, Start(task));
    assert Attempts(s', task) == Attempts(s, task) + 1 && forall k :: k != task ==> Attempts(s', k) == Attempts(s, k);
    hide Attempts;
  }

  lemma CountedAsk(digest: Digest, s: Sys, task: TaskId, hashes: set<Hash>)
    requires Enabled(digest, s, AskOrigin(task, hashes)) && Counted(s)
    ensures Counted(Next(digest, s, AskOrigin(task, hashes)))
  {
    var s' := Next(digest, s, AskOrigin(task, hashes));
    assert forall k :: Attempts(s', k) == Attempts(s, k);
    assert s.attempts[task] == Attempts(s, task);
    hide Attempts;
  }

  lemma CountedRun(s: Sys, s': Sys, task: TaskId)
    requires Counted(s) && task in s.runs && task in s'.runs
    requires s'.egress == s.egress && s'.attempts == s.attempts && s'.tasks == s.tasks
    requires s'.runs == s.runs[task := s'.runs[task]]
    requires s'.runs[task].Downloading? ==> s.runs[task].Downloading? && s'.runs[task].asked == s.runs[task].asked
    ensures Counted(s')
  {
    CountedQuiet(s, s');
  }

  lemma CountedSink(s: Sys, task: TaskId, block: Block)
    requires Counted(s) && InRun(s, task) && s.runs[task].Downloading?
    ensures Counted(AfterSink(s, task, block))
  {
    hide PackFlush.Filled;
    hide Held;
    hide PackBatch.BlockHashes;
    hide Counted;
    CountedRun(s, AfterSink(s, task, block), task);
  }

  lemma CountedFails(digest: Digest, s: Sys, task: TaskId, block: Block, after: PackStore.Pack)
    requires Enabled(digest, s, FlushFails(task, block, after)) && Counted(s)
    ensures Counted(Next(digest, s, FlushFails(task, block, after)))
  {
    hide Held;
    hide PackBatch.BlockHashes;
    hide Counted;
    CountedRun(s, Next(digest, s, FlushFails(task, block, after)), task);
  }

  lemma CountedFinish(digest: Digest, s: Sys, task: TaskId)
    requires Enabled(digest, s, Finish(task)) && Counted(s)
    ensures Counted(Next(digest, s, Finish(task)))
  {
    hide PackFlush.Filled;
    hide Held;
    hide PackBatch.BlockHashes;
    hide Counted;
    CountedRun(s, Next(digest, s, Finish(task)), task);
  }

  lemma SinkMove(digest: Digest, s: Sys, task: TaskId, block: Block)
    requires Enabled(digest, s, Sink(task, block))
    ensures InRun(s, task) && s.runs[task].Downloading? &&
      Next(digest, s, Sink(task, block)) == AfterSink(s, task, block)
  {
    hide AfterSink;
  }

  lemma CountedReport(digest: Digest, s: Sys, task: TaskId, hash: Hash)
    requires Enabled(digest, s, Report(task, hash)) && Counted(s)
    ensures Counted(Next(digest, s, Report(task, hash)))
  {
    hide Holders;
    hide Counted;
    CountedRun(s, Next(digest, s, Report(task, hash)), task);
  }

  lemma CountedAbort(digest: Digest, s: Sys, task: TaskId)
    requires Enabled(digest, s, Abort(task)) && Counted(s)
    ensures Counted(Next(digest, s, Abort(task)))
  {
    hide Counted;
    CountedRun(s, Next(digest, s, Abort(task)), task);
  }

  lemma CountedCafe(digest: Digest, s: Sys, node: NodeId, game: GameId, hash: Hash)
    requires Enabled(digest, s, CafeReport(node, game, hash)) && Counted(s)
    ensures Counted(Next(digest, s, CafeReport(node, game, hash)))
  {
    hide Holders;
    hide Counted;
    CountedQuiet(s, Next(digest, s, CafeReport(node, game, hash)));
  }

  lemma CountedCalm(digest: Digest, s: Sys, e: Event)
    requires Enabled(digest, s, e) && Calm(e) && Counted(s)
    ensures Counted(Next(digest, s, e))
  {
    hide *;
    CalmStep(digest, s, e);
    CountedQuiet(s, Next(digest, s, e));
  }

  lemma OtherwiseCalm(e: Event)
    ensures e.Start? || e.AskOrigin? || e.Sink? || e.FlushFails? || e.Finish? || e.Report? || e.Abort? ||
      e.CafeReport? || Calm(e)
  {
  }

  lemma CountedStep(digest: Digest, s: Sys, e: Event)
    requires Enabled(digest, s, e) && Counted(s)
    ensures Counted(Next(digest, s, e))
  {
    hide *;
    match e {
      case Start(task) => CountedStart(digest, s, task);
      case AskOrigin(task, hashes) => CountedAsk(digest, s, task, hashes);
      case Sink(task, block) => SinkMove(digest, s, task, block); CountedSink(s, task, block);
      case FlushFails(task, block, after) => CountedFails(digest, s, task, block, after);
      case Finish(task) => CountedFinish(digest, s, task);
      case Report(task, hash) => CountedReport(digest, s, task, hash);
      case Abort(task) => CountedAbort(digest, s, task);
      case CafeReport(node, game, hash) => CountedCafe(digest, s, node, game, hash);
      case _ => assert Calm(e) by { OtherwiseCalm(e); } CountedCalm(digest, s, e);
    }
  }

  lemma {:induction false} AlwaysCounted(digest: Digest, states: seq<Sys>, events: seq<Event>, i: nat)
    requires Behaviour(digest, states, events) && i < |states|
    ensures Counted(states[i])
  {
    hide Next;
    hide Enabled;
    if i > 0 {
      AlwaysCounted(digest, states, events, i - 1);
      CountedStep(digest, states[i - 1], events[i - 1]);
    }
  }

  /** Every request is new: one task, attempt and block in the record stands for exactly one request. */
  lemma RequestsAreNew(digest: Digest, states: seq<Sys>, events: seq<Event>, i: nat)
    requires Behaviour(digest, states, events) && i < |events| && events[i].AskOrigin?
    ensures var asked := Requests(events[i].task, Attempts(states[i], events[i].task), events[i].hashes);
            asked !! states[i].egress && states[i + 1].egress == states[i].egress + asked
  {
    AlwaysCounted(digest, states, events, i);
    assert Enabled(digest, states[i], events[i]);
    hide PackFlush.Filled;
    hide Held;
  }

  /** Event `j` creates task `id` with `hash` on its duty: an IDC node, a block of the version, and no holder known. */
  ghost predicate AssignedAt(s: Sys, e: Event, id: TaskId, hash: Hash) {
    e.CreateTask? && e.task == id && e.node in s.nodes && s.nodes[e.node] == Idc &&
    (e.game, e.version) in s.versions && hash in s.versions[(e.game, e.version)] && Holders(s, e.game, hash) == []
  }

  lemma DutyStep(digest: Digest, s: Sys, e: Event, id: TaskId, hash: Hash)
    requires Enabled(digest, s, e) && id in Next(digest, s, e).tasks && hash in Next(digest, s, e).tasks[id].duty
    ensures (id in s.tasks && hash in s.tasks[id].duty) || AssignedAt(s, e, id, hash)
    ensures AssignedAt(s, e, id, hash) ==> Next(digest, s, e).tasks[id].game == e.game
  {
    hide *;
    if !Calm(e) {
      NodeStep(digest, s, e);
    }
    match e {
      case Register(n, kind) => RegisterIs(digest, s, n, kind);
      case Publish(game, version, chunks) => PublishIs(digest, s, game, version, chunks);
      case CreateTask(task, node, game, version) => CreateIs(digest, s, task, node, game, version);
      case Rollback(task, node, game, version) => RollbackIs(digest, s, task, node, game, version);
      case _ => NotCalm(e);
    }
    AssignedIff(s, e, id, hash);
  }

  lemma AssignedIff(s: Sys, e: Event, id: TaskId, hash: Hash)
    ensures AssignedAt(s, e, id, hash)
       <==> e.CreateTask? && e.task == id && e.node in s.nodes && hash in Duty(s, e.game, e.version, s.nodes[e.node])
  {
    hide Holders;
  }

  lemma {:induction false} DutyHasBirth(digest: Digest, states: seq<Sys>, events: seq<Event>, i: nat, id: TaskId,
      hash: Hash) returns (j: nat)
    requires Behaviour(digest, states, events) && i < |states|
    requires id in states[i].tasks && hash in states[i].tasks[id].duty
    ensures j < i && AssignedAt(states[j], events[j], id, hash) && states[i].tasks[id].game == events[j].game
  {
    hide Next;
    hide Enabled;
    hide AssignedAt;
    j := 0;
    if i == 0 {
      assert false;
    } else {
      DutyStep(digest, states[i - 1], events[i - 1], id, hash);
      if AssignedAt(states[i - 1], events[i - 1], id, hash) {
        j := i - 1;
      } else {
        j := DutyHasBirth(digest, states, events, i - 1, id, hash);
        TaskStep(digest, states[i - 1], events[i - 1], id);
      }
    }
  }

  /**
   * A node asks the origin for a block only under a task that was created for an IDC node, for a version with that
   * block, at a moment when the ledger listed no holder of it.
   */
  lemma EgressHadNoHolder(digest: Digest, states: seq<Sys>, events: seq<Event>, i: nat, id: TaskId, attempt: nat,
      hash: Hash) returns (j: nat)
    requires Behaviour(digest, states, events) && i < |states| && (id, attempt, hash) in states[i].egress
    ensures j < i && AssignedAt(states[j], events[j], id, hash)
    ensures id in states[i].tasks && states[i].tasks[id].game == events[j].game
  {
    hide Behaviour;
    hide AssignedAt;
    AlwaysCounted(digest, states, events, i);
    j := DutyHasBirth(digest, states, events, i, id, hash);
  }

  /** From the first report of a block on, no newly created task has it on its duty. */
  lemma ReportedNeverAssigned(digest: Digest, states: seq<Sys>, events: seq<Event>, i: nat, j: nat, hash: Hash)
    requires Behaviour(digest, states, events) && i <= j < |events| && events[j].CreateTask?
    requires Holders(states[i], events[j].game, hash) != []
    ensures events[j].task in states[j + 1].tasks && hash !in states[j + 1].tasks[events[j].task].duty
  {
    HoldersStay(digest, states, events, i, j, events[j].game, hash);
    hide Holders;
  }

  /**
   * Hence every request for a block that the origin ever gets belongs to a task older than the block's first report.
   */
  lemma EgressPredatesReport(digest: Digest, states: seq<Sys>, events: seq<Event>, i: nat, k: nat, id: TaskId,
      attempt: nat, hash: Hash)
    requires Behaviour(digest, states, events) && i < |states| && k < |states|
    requires (id, attempt, hash) in states[k].egress && id in states[k].tasks
    requires Holders(states[i], states[k].tasks[id].game, hash) != []
    ensures exists j :: 0 <= j < i && j < |events| && AssignedAt(states[j], events[j], id, hash)
  {
    var j := EgressHadNoHolder(digest, states, events, k, id, attempt, hash);
    if j >= i {
      HoldersStay(digest, states, events, i, j, events[j].game, hash);
    }
  }

  /**
   * When two tasks share a duty: of two tasks created one after the other both are assigned a block exactly when both
   * are for IDC nodes and versions with that block and no holder was reported before the second was created.
   */
  lemma BothAssignedIff(digest: Digest, states: seq<Sys>, events: seq<Event>, i: nat, j: nat, hash: Hash)
    requires Behaviour(digest, states, events) && i < j < |events|
    requires events[i].CreateTask? && events[j].CreateTask? && events[i].game == events[j].game
    ensures events[i].task in states[j + 1].tasks && events[j].task in states[j + 1].tasks
    ensures hash in states[j + 1].tasks[events[i].task].duty && hash in states[j + 1].tasks[events[j].task].duty
       <==> (Covers(states[i], events[i], hash) && Covers(states[j], events[j], hash) &&
             Holders(states[j], events[j].game, hash) == [])
  {
    HoldersStay(digest, states, events, i, j, events[j].game, hash);
    assert events[i].task in states[i + 1].tasks;
    TasksStay(digest, states, events, i + 1, j + 1, events[i].task);
    hide Holders;
  }

  ghost predicate Covers(s: Sys, e: Event, hash: Hash)
    requires e.CreateTask?
  {
    e.node in s.nodes && s.nodes[e.node] == Idc && (e.game, e.version) in s.versions &&
      hash in s.versions[(e.game, e.version)]
  }

  /** Every task for a version with the block, but the first, is created after a holder of it was reported. */
  ghost predicate HandedOver(states: seq<Sys>, events: seq<Event>, i: nat, game: GameId, hash: Hash)
    requires |states| == |events| + 1 && i <= |events|
  {
    forall j, l :: 0 <= j < l < i && IsFor(states[j], events[j], game, hash) && IsFor(states[l], events[l], game, hash)
      ==> Holders(states[l], game, hash) != []
  }

  ghost predicate IsFor(s: Sys, e: Event, game: GameId, hash: Hash) {
    e.CreateTask? && e.game == game && Covers(s, e, hash)
  }

  /** Then, when also no task is started twice, the origin is asked for the block once at most. */
  lemma OriginAskedOnce(digest: Digest, states: seq<Sys>, events: seq<Event>, i: nat, hash: Hash, k1: TaskId, a1: nat,
      k2: TaskId, a2: nat)
    requires Behaviour(digest, states, events) && i < |states|
    requires (k1, a1, hash) in states[i].egress && (k2, a2, hash) in states[i].egress
    requires k1 in states[i].tasks && k2 in states[i].tasks && states[i].tasks[k1].game == states[i].tasks[k2].game
    requires forall k :: k in states[i].attempts ==> states[i].attempts[k] <= 1
    requires HandedOver(states, events, i, states[i].tasks[k1].game, hash)
    ensures k1 == k2 && a1 == a2
  {
    var j1 := EgressHadNoHolder(digest, states, events, i, k1, a1, hash);
    var j2 := EgressHadNoHolder(digest, states, events, i, k2, a2, hash);
    AlwaysCounted(digest, states, events, i);
    hide Holders;
    hide Behaviour;
    var game := states[i].tasks[k1].game;
    assert IsFor(states[j1], events[j1], game, hash) && IsFor(states[j2], events[j2], game, hash);
  }

  // ---------- "each block leaves the origin once" does not hold ----------

  /** Two nodes told to fetch the same fresh version before either reports. */
  function Script(hash: Hash): seq<Event> {
    [Register(1, Idc), Register(2, Idc), Publish(7, 1, Some({hash})), CreateTask(1, 1, 7, 1), CreateTask(2, 2, 7, 1),
     Start(1), Start(2), AskOrigin(1, {hash}), AskOrigin(2, {hash})]
  }

  /** The states of that run: two nodes, one version, two tasks with the same duty, two runs, two requests. */
  function ScriptState(hash: Hash, i: nat): Sys {
    var nodes: map<NodeId, Kind> := if i == 0 then map[] else if i == 1 then map[1 := Idc] else map[1 := Idc, 2 := Idc];
    var versions: map<(GameId, Version), set<Hash>> := if i < 3 then map[] else map[(7, 1) := {hash}];
    var tasks: map<TaskId, Task> :=
      if i < 4 then map[] else if i == 4 then map[1 := Task(1, 7, 1, {hash})]
      else map[1 := Task(1, 7, 1, {hash}), 2 := Task(2, 7, 1, {hash})];
    var runs: map<TaskId, Run> :=
      if i < 6 then map[] else if i == 6 then map[1 := Loading(hash, false)]
      else map[1 := Loading(hash, i >= 8), 2 := Loading(hash, i >= 9)];
    var attempts: map<TaskId, nat> := if i < 6 then map[] else if i == 6 then map[1 := 1] else map[1 := 1, 2 := 1];
    var egress: set<(TaskId, nat, Hash)> :=
      if i < 8 then {} else if i == 8 then {(1, 1, hash)} else {(1, 1, hash), (2, 1, hash)};
    Sys(nodes, versions, {}, map[], tasks, runs, map[], attempts, egress, {})
  }

  function Loading(hash: Hash, asked: bool): Run {
    Downloading({hash}, {hash}, {}, [], asked)
  }

  lemma ScriptSetup(digest: Digest, hash: Hash, i: nat)
    requires i < 3
    ensures Enabled(digest, ScriptState(hash, i), Script(hash)[i])
    ensures Next(digest, ScriptState(hash, i), Script(hash)[i]) == ScriptState(hash, i + 1)
  {
  }

  lemma ScriptCreate(digest: Digest, hash: Hash, i: nat)
    requires 3 <= i < 5
    ensures Enabled(digest, ScriptState(hash, i), Script(hash)[i])
    ensures Next(digest, ScriptState(hash, i), Script(hash)[i]) == ScriptState(hash, i + 1)
  {
    var s := ScriptState(hash, i);
    assert Duty(s, 7, 1, Idc) == {hash};
  }

  lemma ScriptStart(digest: Digest, hash: Hash, i: nat)
    requires 5 <= i < 7
    ensures Enabled(digest, ScriptState(hash, i), Script(hash)[i])
    ensures Next(digest, ScriptState(hash, i), Script(hash)[i]) == ScriptState(hash, i + 1)
  {
    var s := ScriptState(hash, i);
    assert Held(s, 1, 7) == {} && Held(s, 2, 7) == {} && {hash} - {} == {hash};
  }

  lemma ScriptAsk(digest: Digest, hash: Hash, i: nat)
    requires 7 <= i < 9
    ensures Enabled(digest, ScriptState(hash, i), Script(hash)[i])
    ensures Next(digest, ScriptState(hash, i), Script(hash)[i]) == ScriptState(hash, i + 1)
  {
    var s := ScriptState(hash, i);
    var task: TaskId := if i == 7 then 1 else 2;
    assert Requests(task, 1, {hash}) == {(task, 1, hash)};
  }

  /** The documents promise that every block leaves the origin once; this run sends one twice. */
  lemma TwoTasksOneBlock(digest: Digest, hash: Hash) returns (states: seq<Sys>)
    ensures Behaviour(digest, states, Script(hash))
    ensures states[9].egress == {(1, 1, hash), (2, 1, hash)}
  {
    states := seq(10, i requires 0 <= i < 10 => ScriptState(hash, i));
    assert ScriptState(hash, 0) == Init;
    hide Next;
    hide Enabled;
    forall i | 0 <= i < 9
      ensures Enabled(digest, states[i], Script(hash)[i]) && states[i + 1] == Next(digest, states[i], Script(hash)[i])
    {
      if i < 3 {
        ScriptSetup(digest, hash, i);
      } else if i < 5 {
        ScriptCreate(digest, hash, i);
      } else if i < 7 {
        ScriptStart(digest, hash, i);
      } else {
        ScriptAsk(digest, hash, i);
      }
    }
  }

  /** One task that is stopped after its request and started again. */
  function RetryScript(hash: Hash): seq<Event> {
    [Register(1, Idc), Publish(7, 1, Some({hash})), CreateTask(1, 1, 7, 1), Start(1), AskOrigin(1, {hash}),
     Abort(1), Start(1), AskOrigin(1, {hash})]
  }

  function RetryState(hash: Hash, i: nat): Sys {
    var nodes: map<NodeId, Kind> := if i == 0 then map[] else map[1 := Idc];
    var versions: map<(GameId, Version), set<Hash>> := if i < 2 then map[] else map[(7, 1) := {hash}];
    var tasks: map<TaskId, Task> := if i < 3 then map[] else map[1 := Task(1, 7, 1, {hash})];
    var runs: map<TaskId, Run> :=
      if i < 4 then map[] else if i == 6 then map[1 := Aborted] else map[1 := Loading(hash, i == 5 || i == 8)];
    var attempts: map<TaskId, nat> := if i < 4 then map[] else if i < 7 then map[1 := 1] else map[1 := 2];
    var egress: set<(TaskId, nat, Hash)> :=
      if i < 5 then {} else if i < 8 then {(1, 1, hash)} else {(1, 1, hash), (1, 2, hash)};
    Sys(nodes, versions, {}, map[], tasks, runs, map[], attempts, egress, {})
  }

  lemma RetryQuiet(digest: Digest, hash: Hash, i: nat)
    requires i < 3 || i == 5
    ensures Enabled(digest, RetryState(hash, i), RetryScript(hash)[i])
    ensures Next(digest, RetryState(hash, i), RetryScript(hash)[i]) == RetryState(hash, i + 1)
  {
    assert Duty(RetryState(hash, 2), 7, 1, Idc) == {hash};
  }

  lemma RetryStart(digest: Digest, hash: Hash, i: nat)
    requires i == 3 || i == 6
    ensures Enabled(digest, RetryState(hash, i), RetryScript(hash)[i])
    ensures Next(digest, RetryState(hash, i), RetryScript(hash)[i]) == RetryState(hash, i + 1)
  {
    assert Held(RetryState(hash, i), 1, 7) == {} && {hash} - {} == {hash};
  }

  lemma RetryAsk(digest: Digest, hash: Hash, i: nat)
    requires i == 4 || i == 7
    ensures Enabled(digest, RetryState(hash, i), RetryScript(hash)[i])
    ensures Next(digest, RetryState(hash, i), RetryScript(hash)[i]) == RetryState(hash, i + 1)
  {
    assert Requests(1, 1, {hash}) == {(1, 1, hash)} && Requests(1, 2, {hash}) == {(1, 2, hash)};
  }

  /** A task alone can take a block from the origin twice. */
  lemma OneTaskTwice(digest: Digest, hash: Hash) returns (states: seq<Sys>)
    ensures Behaviour(digest, states, RetryScript(hash))
    ensures states[8].egress == {(1, 1, hash), (1, 2, hash)}
  {
    states := seq(9, i requires 0 <= i < 9 => RetryState(hash, i));
    assert RetryState(hash, 0) == Init;
    hide Next;
    hide Enabled;
    forall i | 0 <= i < 8
      ensures Enabled(digest, states[i], RetryScript(hash)[i]) &&
        states[i + 1] == Next(digest, states[i], RetryScript(hash)[i])
    {
      if i == 3 || i == 6 {
        RetryStart(digest, hash, i);
      } else if i == 4 || i == 7 {
        RetryAsk(digest, hash, i);
      } else {
        RetryQuiet(digest, hash, i);
      }
    }
  }
}
