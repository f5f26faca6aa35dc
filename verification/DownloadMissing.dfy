/** Multi-source download: two rounds over peers, then the origin for the blocks this node is responsible for. */
module DownloadMissing {
  import opened Common
  import opened FetchServe

  datatype Peer = Peer(endpoint: nat, endpointValid: bool, addrs: seq<Option<nat>>, directOnly: bool)
  datatype Target = Target(endpoint: nat, addr: Option<nat>, directOnly: bool)
  datatype Group = Group(target: Target, hashes: seq<Hash>)

  datatype Failure = QueryFailed | NoDirectAddress | WaitForOthers | NoOrigin | OriginBroken | StillMissing
  datatype Outcome = Done(downloaded: seq<Hash>) | Error(failure: Failure)

  ghost function GroupHashes(groups: seq<Group>): set<Hash> {
    set g, h | g in groups && h in g.hashes :: h
  }

  /** Everything asked for was sunk or is still listed, and nothing else is listed. */
  ghost predicate Covered(missing: seq<Hash>, sunk: seq<Block>, unresolved: seq<Hash>) {
    (forall h :: h in missing ==> h in Hashes(sunk) || h in unresolved) &&
      (forall h :: h in unresolved ==> h in missing)
  }

  ghost predicate SinkOk(digest: Digest, missing: seq<Hash>, sunk: seq<Block>) {
    Verified(digest, sunk) && forall h :: h in Hashes(sunk) ==> h in missing
  }

  /** Peers with an address and a valid endpoint that have not failed yet. */
  function Candidates(peers: seq<Peer>, exclude: set<nat>): (c: seq<Peer>)
    ensures forall p :: p in c <==> p in peers && p.addrs != [] && p.endpoint !in exclude && p.endpointValid
  {
    if peers == [] then
      [] else (if Eligible(peers[0], exclude) then [peers[0]] else []) + Candidates(peers[1..], exclude)
  }

  predicate Eligible(p: Peer, exclude: set<nat>) {
    p.addrs != [] && p.endpoint !in exclude && p.endpointValid
  }

  /** Candidates keep the scheduler's order, each as often as it is listed. */
  lemma {:induction false} CandidatesInOrder(a: seq<Peer>, p: Peer, exclude: set<nat>)
    ensures Candidates([], exclude) == []
    ensures Candidates(a + [p], exclude)
         == Candidates(a, exclude)
            + if p.addrs != [] && p.endpoint !in exclude && p.endpointValid then [p] else []
  {
    hide *;
    var last := if Eligible(p, exclude) then [p] else [];
    assert Eligible(p, exclude) <==> p.addrs != [] && p.endpoint !in exclude && p.endpointValid by {
      EligibleIs(p, exclude);
    }
    NoCandidates(exclude);
    CandidatesHead(a + [p], exclude);
    if a == [] {
      assert (a + [p])[1..] == [];
    } else {
      CandidatesInOrder(a[1..], p, exclude);
      assert (a + [p])[1..] == a[1..] + [p] && (a + [p])[0] == a[0];
      CandidatesHead(a, exclude);
      var first := if Eligible(a[0], exclude) then [a[0]] else [];
      JoinAssociates(first, Candidates(a[1..], exclude), last);
    }
  }

  lemma EligibleIs(p: Peer, exclude: set<nat>)
    ensures Eligible(p, exclude) <==> p.addrs != [] && p.endpoint !in exclude && p.endpointValid
  {
  }

  lemma NoCandidates(exclude: set<nat>)
    ensures Candidates([], exclude) == []
  {
  }

  lemma CandidatesHead(a: seq<Peer>, exclude: set<nat>)
    requires a != []
    ensures Candidates(a, exclude)
         == (if Eligible(a[0], exclude) then [a[0]] else []) + Candidates(a[1..], exclude)
  {
    hide Eligible;
  }

  lemma GroupAdded(groups: seq<Group>, i: nat, hash: Hash)
    requires i < |groups|
    ensures GroupHashes(groups[i := Group(groups[i].target, groups[i].hashes + [hash])]) == GroupHashes(groups) + {hash}
  {
    var next := groups[i := Group(groups[i].target, groups[i].hashes + [hash])];
    forall h | h in GroupHashes(groups)
      ensures h in GroupHashes(next)
    {
      var g :| g in groups && h in g.hashes;
      var k :| 0 <= k < |groups| && groups[k] == g;
      assert next[k] in next && h in next[k].hashes;
    }
    assert next[i] in next && hash in next[i].hashes;
    forall h | h in GroupHashes(next)
      ensures h in GroupHashes(groups) + {hash}
    {
      var g :| g in next && h in g.hashes;
      var k :| 0 <= k < |next| && next[k] == g;
      assert groups[k] in groups;
    }
  }

  lemma GroupOpened(groups: seq<Group>, target: Target, hash: Hash)
    ensures GroupHashes(groups + [Group(target, [hash])]) == GroupHashes(groups) + {hash}
  {
    var next := groups + [Group(target, [hash])];
    assert next[|groups|] in next && hash in next[|groups|].hashes;
    forall h | h in GroupHashes(groups)
      ensures h in GroupHashes(next)
    {
      var g :| g in groups && h in g.hashes;
      assert g in next;
    }
  }

  /** What the scheduler answers for a block; `None` is a failed query. */
  type Query = Hash -> Option<seq<Peer>>

  /** The first byte of the block hash picks among the candidates and, again, among the addresses of the one picked. */
  function Pick(candidates: seq<Peer>, hash: Hash): Target
    requires candidates != [] && forall p :: p in candidates ==> p.addrs != []
  {
    var p := candidates[hash[0] % |candidates|];
    Target(p.endpoint, p.addrs[hash[0] % |p.addrs|], p.directOnly)
  }

  /** The source of a round for `hash`: endpoint, address and directness of one and the same peer. */
  ghost predicate PickedFor(query: Query, exclude: set<nat>, hash: Hash, target: Target) {
    query(hash).Some? &&
    var c := Candidates(query(hash).value, exclude);
    c != [] &&
    var p := c[hash[0] % |c|];
    target.endpoint == p.endpoint && target.addr == p.addrs[hash[0] % |p.addrs|] && target.directOnly == p.directOnly
  }

  lemma PickIsPicked(query: Query, exclude: set<nat>, hash: Hash)
    requires query(hash).Some? && Candidates(query(hash).value, exclude) != []
    ensures PickedFor(query, exclude, hash, Pick(Candidates(query(hash).value, exclude), hash))
  {
    hide Candidates;
  }

  /** Every group is for one target, has work, and only blocks that picked it. */
  ghost predicate Grouped(query: Query, exclude: set<nat>, groups: seq<Group>) {
    (forall i, j :: 0 <= i < j < |groups| ==> groups[i].target != groups[j].target) &&
    (forall i :: 0 <= i < |groups| ==> groups[i].hashes != []) &&
    forall i, h :: 0 <= i < |groups| && h in groups[i].hashes ==> PickedFor(query, exclude, h, groups[i].target)
  }

  lemma GroupedStep(query: Query, exclude: set<nat>, groups: seq<Group>, target: Target, hash: Hash, i: nat)
    requires Grouped(query, exclude, groups) && PickedFor(query, exclude, hash, target)
    ensures i < |groups| && groups[i].target == target ==>
      Grouped(query, exclude, groups[i := Group(target, groups[i].hashes + [hash])])
    ensures (forall k :: 0 <= k < |groups| ==> groups[k].target != target) ==>
      Grouped(query, exclude, groups + [Group(target, [hash])])
  {
    hide PickedFor;
  }

  /** All requests of a round, with repetitions. */
  ghost function Asked(groups: seq<Group>): multiset<Hash> {
    if groups == [] then multiset{} else multiset(groups[0].hashes) + Asked(groups[1..])
  }

  lemma {:induction false} AskedAdded(groups: seq<Group>, i: nat, hash: Hash)
    requires i < |groups|
    ensures Asked(groups[i := Group(groups[i].target, groups[i].hashes + [hash])]) == Asked(groups) + multiset{hash}
  {
    var next := groups[i := Group(groups[i].target, groups[i].hashes + [hash])];
    if i == 0 {
      assert next[1..] == groups[1..];
    } else {
      AskedAdded(groups[1..], i - 1, hash);
      assert next[1..] == groups[1..][i - 1 := Group(groups[i].target, groups[i].hashes + [hash])];
    }
  }

  lemma {:induction false} AskedOpened(groups: seq<Group>, target: Target, hash: Hash)
    ensures Asked(groups + [Group(target, [hash])]) == Asked(groups) + multiset{hash}
  {
    var next := groups + [Group(target, [hash])];
    if groups == [] {
      assert next[1..] == [];
    } else {
      AskedOpened(groups[1..], target, hash);
      assert next[1..] == groups[1..] + [Group(target, [hash])];
    }
  }

  /** The blocks of `done` are in the groups if they have a candidate and are unplaced otherwise, each as often. */
  ghost predicate Dealt(query: Query, exclude: set<nat>, done: seq<Hash>, groups: seq<Group>, unplaced: seq<Hash>) {
    (forall h :: h in done ==> query(h).Some?) &&
    (forall h :: h in GroupHashes(groups) <==> h in done && Candidates(query(h).value, exclude) != []) &&
    (forall h :: h in unplaced <==> h in done && Candidates(query(h).value, exclude) == []) &&
    Asked(groups) + multiset(unplaced) == multiset(done)
  }

  lemma DealtAll(query: Query, exclude: set<nat>, done: seq<Hash>, groups: seq<Group>, unplaced: seq<Hash>)
    requires Dealt(query, exclude, done, groups, unplaced)
    ensures forall h :: h in done ==> query(h).Some?
    ensures forall h :: h in GroupHashes(groups) <==> h in done && Candidates(query(h).value, exclude) != []
    ensures forall h :: h in unplaced <==> h in done && Candidates(query(h).value, exclude) == []
    ensures Asked(groups) + multiset(unplaced) == multiset(done)
  {
    hide GroupHashes;
    hide Candidates;
    hide Asked;
  }

  lemma DealtUnplaced(query: Query, exclude: set<nat>, done: seq<Hash>, groups: seq<Group>, unplaced: seq<Hash>,
      hash: Hash)
    requires Dealt(query, exclude, done, groups, unplaced)
    requires query(hash).Some? && Candidates(query(hash).value, exclude) == []
    ensures Dealt(query, exclude, done + [hash], groups, unplaced + [hash])
  {
    hide GroupHashes;
    hide Candidates;
    hide Asked;
  }

  lemma DealtAdded(query: Query, exclude: set<nat>, done: seq<Hash>, groups: seq<Group>, unplaced: seq<Hash>,
      hash: Hash, k: nat)
    requires Dealt(query, exclude, done, groups, unplaced) && k < |groups|
    requires query(hash).Some? && Candidates(query(hash).value, exclude) != []
    ensures Dealt(query, exclude, done + [hash], groups[k := Group(groups[k].target, groups[k].hashes + [hash])],
      unplaced)
  {
    hide GroupHashes;
    hide Candidates;
    hide Asked;
    GroupAdded(groups, k, hash);
    AskedAdded(groups, k, hash);
  }

  lemma DealtOpened(query: Query, exclude: set<nat>, done: seq<Hash>, groups: seq<Group>, unplaced: seq<Hash>,
      hash: Hash, target: Target)
    requires Dealt(query, exclude, done, groups, unplaced)
    requires query(hash).Some? && Candidates(query(hash).value, exclude) != []
    ensures Dealt(query, exclude, done + [hash], groups + [Group(target, [hash])], unplaced)
  {
    hide GroupHashes;
    hide Candidates;
    hide Asked;
    GroupOpened(groups, target, hash);
    AskedOpened(groups, target, hash);
  }

  /** Ask for the holders of every block and group the blocks by the source picked for them. */
  method GroupByPeer(query: Query, unresolved: seq<Hash>, exclude: set<nat>)
    returns (ok: bool, groups: seq<Group>, unplaced: seq<Hash>)
    ensures ok <==> forall h :: h in unresolved ==> query(h).Some?
    ensures Grouped(query, exclude, groups)
    ensures ok ==> forall h ::
      h in GroupHashes(groups) <==> h in unresolved && Candidates(query(h).value, exclude) != []
    ensures ok ==> forall h :: h in unplaced <==> h in unresolved && Candidates(query(h).value, exclude) == []
    ensures ok ==> Asked(groups) + multiset(unplaced) == multiset(unresolved)
  {
    hide *;
    groups, unplaced := [], [];
    NoGroups(query, exclude);
    var groupIndex: map<Target, nat> := map[];
    assert unresolved[..0] == [];
    for i := 0 to |unresolved|
      invariant Grouped(query, exclude, groups) && Dealt(query, exclude, unresolved[..i], groups, unplaced)
      invariant forall t :: t in groupIndex ==> groupIndex[t] < |groups| && groups[groupIndex[t]].target == t
      invariant forall k :: 0 <= k < |groups| ==> groups[k].target in groupIndex
    {
      var hash := unresolved[i];
      assert unresolved[..i + 1] == unresolved[..i] + [hash];
      var peers := query(hash);
      if peers.None? { return false, groups, unplaced; }
      var candidates := Candidates(peers.value, exclude);
      if candidates == [] {
        DealtUnplaced(query, exclude, unresolved[..i], groups, unplaced, hash);
        unplaced := unplaced + [hash];
        continue;
      }
      var target := Pick(candidates, hash);
      PickIsPicked(query, exclude, hash);
      if target in groupIndex {
        var k := groupIndex[target];
        DealtAdded(query, exclude, unresolved[..i], groups, unplaced, hash, k);
        GroupedStep(query, exclude, groups, target, hash, k);
        groups := groups[k := Group(groups[k].target, groups[k].hashes + [hash])];
      } else {
        DealtOpened(query, exclude, unresolved[..i], groups, unplaced, hash, target);
        GroupedStep(query, exclude, groups, target, hash, |groups|);
        groupIndex := groupIndex[target := |groups|];
        groups := groups + [Group(target, [hash])];
      }
    }
    assert unresolved[..|unresolved|] == unresolved;
    DealtAll(query, exclude, unresolved, groups, unplaced);
    ok := true;
  }

  lemma NoGroups(query: Query, exclude: set<nat>)
    ensures Grouped(query, exclude, []) && Dealt(query, exclude, [], [], [])
  {
  }

  /** What a source does with a request: nothing, or a stream, of which the sink takes `room` blocks. */
  datatype Reply = Refused | Stream(bytes: Bytes, room: nat)

  type Source = seq<Hash> -> Reply
  type Peers = Target -> Source

  /** What becomes of one transfer. */
  function Answer(digest: Digest, source: Source, hashes: seq<Hash>): FetchResult {
    match source(hashes)
    case Refused => Broken([])
    case Stream(bytes, room) => Fetch(digest, hashes, bytes, room)
  }

  method Transfer(digest: Digest, source: Source, hashes: seq<Hash>) returns (r: FetchResult)
    ensures r == Answer(digest, source, hashes)
  {
    match source(hashes) {
      case Refused => r := Broken([]);
      case Stream(bytes, room) => r := FetchChunks(digest, hashes, bytes, room);
    }
  }

  lemma AnswerAccounts(digest: Digest, source: Source, hashes: seq<Hash>) returns (room: nat)
    ensures Accounts(digest, hashes, room, Answer(digest, source, hashes))
  {
    hide Fetch;
    hide Accounts;
    match source(hashes) {
      case Refused => room := 0; AccountsNothing(digest, hashes, 0);
      case Stream(bytes, r) => room := r; FetchAccounts(digest, hashes, bytes, r);
    }
  }

  /** A server with these blocks, over an unbroken stream into a willing sink. */
  ghost predicate ServesAs(source: Source, held: map<Hash, Bytes>) {
    forall hs: seq<Hash> :: source(hs).Stream? && source(hs).bytes == Serve(held, hs) && source(hs).room >= |hs|
  }

  /** The source has all of `wanted`, with genuine bytes. */
  ghost predicate TrueTo(digest: Digest, source: Source, wanted: set<Hash>) {
    exists held :: ServesAs(source, held) && Genuine(digest, held) && wanted <= held.Keys
  }

  lemma TrueForFewer(digest: Digest, source: Source, wanted: set<Hash>, fewer: set<Hash>)
    requires TrueTo(digest, source, wanted) && fewer <= wanted
    ensures TrueTo(digest, source, fewer)
  {
    var held :| ServesAs(source, held) && Genuine(digest, held) && wanted <= held.Keys;
    hide ServesAs;
    hide Genuine;
    assert fewer <= held.Keys;
  }

  ghost predicate Dead(source: Source) {
    forall hs: seq<Hash> :: source(hs) == Refused
  }

  lemma TrueDelivers(digest: Digest, source: Source, wanted: set<Hash>, hashes: seq<Hash>)
    requires TrueTo(digest, source, wanted) && forall h :: h in hashes ==> h in wanted
    ensures Answer(digest, source, hashes).Fetched? && Answer(digest, source, hashes).failed == []
    ensures forall h :: h in hashes ==> h in Hashes(Answer(digest, source, hashes).sunk)
  {
    var held :| ServesAs(source, held) && Genuine(digest, held) && wanted <= held.Keys;
    assert source(hashes).Stream? && source(hashes).bytes == Serve(held, hashes) && source(hashes).room >= |hashes|;
    hide *;
    assert Answer(digest, source, hashes) == Fetch(digest, hashes, Serve(held, hashes), source(hashes).room) by {
      AnswerOf(digest, source, hashes);
    }
    HonestDelivers(digest, held, hashes, source(hashes).room);
  }

  lemma AnswerOf(digest: Digest, source: Source, hashes: seq<Hash>)
    requires source(hashes).Stream?
    ensures Answer(digest, source, hashes) == Fetch(digest, hashes, source(hashes).bytes, source(hashes).room)
  {
  }

  lemma HonestDelivers(digest: Digest, held: map<Hash, Bytes>, hashes: seq<Hash>, room: nat)
    requires Genuine(digest, held) && room >= |hashes| && forall h :: h in hashes ==> h in held
    ensures var r := Fetch(digest, hashes, Serve(held, hashes), room);
            r.Fetched? && r.failed == [] && forall h :: h in hashes ==> h in Hashes(r.sunk)
  {
    hide *;
    FetchWithoutCut(digest, held, hashes, room);
    FetchAccounts(digest, hashes, Serve(held, hashes), room);
    var r := Fetch(digest, hashes, Serve(held, hashes), room);
    assert r.Fetched? && r.failed == [];
    TransferCovers(digest, hashes, room, r);
    assert Left(hashes, r) == [] by { NothingToDo(hashes, r); }
  }

  lemma NothingToDo(hashes: seq<Hash>, r: FetchResult)
    requires r.Fetched? && r.failed == []
    ensures Left(hashes, r) == []
  {
  }

  lemma HashesAppend(a: seq<Block>, b: seq<Block>)
    ensures Hashes(a + b) == Hashes(a) + Hashes(b)
  {
    hide Hashes;
    var l, r := Hashes(a + b), Hashes(a) + Hashes(b);
    assert |l| == |r|;
    forall i | 0 <= i < |l|
      ensures l[i] == r[i]
    {
    }
  }

  /** What one transfer leaves to do; everything it was asked for is sunk or left. */
  function Left(hashes: seq<Hash>, r: FetchResult): seq<Hash> {
    match r
    case Fetched(_, failed) => failed
    case Broken(_) => hashes
  }

  lemma TransferCovers(digest: Digest, hashes: seq<Hash>, room: nat, r: FetchResult)
    requires Accounts(digest, hashes, room, r)
    ensures forall h :: h in hashes ==> h in Hashes(r.sunk) || h in Left(hashes, r)
    ensures forall h :: h in Hashes(r.sunk) || h in Left(hashes, r) ==> h in hashes
  {
    assert forall h :: h in hashes <==> h in multiset(hashes);
    assert forall h :: h in Hashes(r.sunk) <==> h in multiset(Hashes(r.sunk));
    assert forall h :: h in Left(hashes, r) <==> h in multiset(Left(hashes, r));
  }

  lemma GroupMember(groups: seq<Group>, i: nat, h: Hash)
    requires i < |groups| && h in groups[i].hashes
    ensures h in GroupHashes(groups)
  {
    assert groups[i] in groups;
  }

  lemma GroupWanted(groups: seq<Group>, i: nat, missing: seq<Hash>)
    requires i < |groups| && forall h :: h in GroupHashes(groups) ==> h in missing
    ensures forall h :: h in groups[i].hashes ==> h in missing
  {
    assert groups[i] in groups;
    assert forall h :: h in groups[i].hashes ==> h in GroupHashes(groups);
  }

  lemma SinkGrows(digest: Digest, missing: seq<Hash>, sunk: seq<Block>, asked: seq<Hash>, room: nat, r: FetchResult)
    requires SinkOk(digest, missing, sunk) && Accounts(digest, asked, room, r)
    requires forall h :: h in asked ==> h in missing
    ensures SinkOk(digest, missing, sunk + r.sunk)
  {
    TransferCovers(digest, asked, room, r);
    HashesAppend(sunk, r.sunk);
    hide Hashes;
  }

  /** What a group's source does. */
  function Gets(digest: Digest, peers: Peers, g: Group): FetchResult {
    Answer(digest, peers(g.target), g.hashes)
  }

  /** The outcome of the first `n` transfers: what reached the sink, what is left, who is excluded. */
  ghost predicate Fetched(digest: Digest, peers: Peers, groups: seq<Group>, n: nat, sunk0: set<Hash>, sunk: seq<Block>,
      left: seq<Hash>, exclude0: set<nat>, exclude: set<nat>)
    requires n <= |groups|
  {
    (forall h :: h in Hashes(sunk) <==> h in sunk0 || SunkBy(digest, peers, groups[..n], h)) &&
    (forall h :: h in left <==> LeftBy(digest, peers, groups[..n], h)) &&
    forall e :: e in exclude <==> e in exclude0 || BrokenAt(digest, peers, groups[..n], e)
  }

  ghost predicate SunkBy(digest: Digest, peers: Peers, groups: seq<Group>, h: Hash) {
    exists i :: 0 <= i < |groups| && h in Hashes(Gets(digest, peers, groups[i]).sunk)
  }

  ghost predicate LeftBy(digest: Digest, peers: Peers, groups: seq<Group>, h: Hash) {
    exists i :: 0 <= i < |groups| && h in Left(groups[i].hashes, Gets(digest, peers, groups[i]))
  }

  ghost predicate BrokenAt(digest: Digest, peers: Peers, groups: seq<Group>, e: nat) {
    exists i :: 0 <= i < |groups| && Gets(digest, peers, groups[i]).Broken? && groups[i].target.endpoint == e
  }

  lemma FetchedStart(digest: Digest, peers: Peers, groups: seq<Group>, sunk: seq<Block>, exclude: set<nat>)
    ensures Fetched(digest, peers, groups, 0, Elements(Hashes(sunk)), sunk, [], exclude, exclude)
  {
    hide Hashes;
  }

  lemma NextSunk(digest: Digest, peers: Peers, done: seq<Group>, g: Group, h: Hash)
    ensures SunkBy(digest, peers, done + [g], h)
       <==> SunkBy(digest, peers, done, h) || h in Hashes(Gets(digest, peers, g).sunk)
  {
    hide Hashes;
    hide Gets;
    assert (done + [g])[|done|] == g;
    assert forall i :: 0 <= i < |done| ==> (done + [g])[i] == done[i];
  }

  lemma NextLeft(digest: Digest, peers: Peers, done: seq<Group>, g: Group, h: Hash)
    ensures LeftBy(digest, peers, done + [g], h)
       <==> LeftBy(digest, peers, done, h) || h in Left(g.hashes, Gets(digest, peers, g))
  {
    hide Left;
    hide Gets;
    assert (done + [g])[|done|] == g;
    assert forall i :: 0 <= i < |done| ==> (done + [g])[i] == done[i];
  }

  lemma NextBroken(digest: Digest, peers: Peers, done: seq<Group>, g: Group, e: nat)
    ensures BrokenAt(digest, peers, done + [g], e)
       <==> BrokenAt(digest, peers, done, e) || (Gets(digest, peers, g).Broken? && g.target.endpoint == e)
  {
    hide Gets;
    assert (done + [g])[|done|] == g;
    assert forall i :: 0 <= i < |done| ==> (done + [g])[i] == done[i];
  }

  lemma FetchedStep(digest: Digest, peers: Peers, groups: seq<Group>, n: nat, sunk0: set<Hash>, sunk: seq<Block>,
      left: seq<Hash>, exclude0: set<nat>, exclude: set<nat>, sunk': seq<Block>)
    requires n < |groups| && Fetched(digest, peers, groups, n, sunk0, sunk, left, exclude0, exclude)
    requires forall h :: h in Hashes(sunk') <==> h in Hashes(sunk) || h in Hashes(Gets(digest, peers, groups[n]).sunk)
    ensures var r := Gets(digest, peers, groups[n]);
            Fetched(digest, peers, groups, n + 1, sunk0, sunk', left + Left(groups[n].hashes, r), exclude0,
              if r.Broken? then exclude + {groups[n].target.endpoint} else exclude)
  {
    hide Hashes;
    hide Gets;
    hide Left;
    hide SunkBy;
    hide LeftBy;
    hide BrokenAt;
    assert groups[..n + 1] == groups[..n] + [groups[n]];
    forall h: Hash
      ensures SunkBy(digest, peers, groups[..n + 1], h)
         <==> SunkBy(digest, peers, groups[..n], h) || h in Hashes(Gets(digest, peers, groups[n]).sunk)
      ensures LeftBy(digest, peers, groups[..n + 1], h)
         <==> LeftBy(digest, peers, groups[..n], h) || h in Left(groups[n].hashes, Gets(digest, peers, groups[n]))
    {
      NextSunk(digest, peers, groups[..n], groups[n], h);
      NextLeft(digest, peers, groups[..n], groups[n], h);
    }
    forall e: nat
      ensures BrokenAt(digest, peers, groups[..n + 1], e) <==>
        BrokenAt(digest, peers, groups[..n], e)
        || (Gets(digest, peers, groups[n]).Broken? && groups[n].target.endpoint == e)
    {
      NextBroken(digest, peers, groups[..n], groups[n], e);
    }
  }

  /** Fetch from every group, all at once; a source that breaks is excluded from the next round. */
  method FetchGroups(digest: Digest, peers: Peers, missing: seq<Hash>, groups: seq<Group>, sunk0: seq<Block>,
      exclude0: set<nat>)
    returns (ok: bool, sunk: seq<Block>, left: seq<Hash>, exclude: set<nat>)
    requires SinkOk(digest, missing, sunk0) && forall h :: h in GroupHashes(groups) ==> h in missing
    ensures SinkOk(digest, missing, sunk) && sunk0 <= sunk
    ensures ok <==> forall i :: 0 <= i < |groups| ==> groups[i].target.addr.Some?
    ensures ok ==>
      Fetched(digest, peers, groups, |groups|, Elements(Hashes(sunk0)), sunk, left, exclude0, exclude)
  {
    hide *;
    left, exclude := [], exclude0;
    var got: seq<Block> := [];
    assert sunk0 + got == sunk0;
    FetchedStart(digest, peers, groups, sunk0, exclude0);
    for i := 0 to |groups|
      invariant SinkOk(digest, missing, sunk0 + got)
      invariant forall k :: 0 <= k < i ==> groups[k].target.addr.Some?
      invariant Fetched(digest, peers, groups, i, Elements(Hashes(sunk0)), sunk0 + got, left, exclude0, exclude)
    {
      var g := groups[i];
      if g.target.addr.None? { return false, sunk0 + got, left, exclude; }
      var r := Transfer(digest, peers(g.target), g.hashes);
      assert r == Gets(digest, peers, g) by { GetsIs(digest, peers, g); }
      ghost var room := AnswerAccounts(digest, peers(g.target), g.hashes);
      HashesAppend(sunk0 + got, r.sunk);
      GroupWanted(groups, i, missing);
      SinkGrows(digest, missing, sunk0 + got, g.hashes, room, r);
      var woven := Weave(got, r.sunk);
      WovenSink(digest, missing, sunk0, got, r.sunk, woven);
      FetchedStep(digest, peers, groups, i, Elements(Hashes(sunk0)), sunk0 + got, left, exclude0, exclude,
        sunk0 + woven);
      got, left := woven, left + Left(g.hashes, r);
      if r.Broken? { exclude := exclude + {g.target.endpoint}; }
    }
    ok, sunk := true, sunk0 + got;
  }

  lemma GetsIs(digest: Digest, peers: Peers, g: Group)
    ensures Gets(digest, peers, g) == Answer(digest, peers(g.target), g.hashes)
  {
  }

  /** Blocks of two transfers as the shared sink may see them: each in its own order, otherwise any. */
  method Weave(a: seq<Block>, b: seq<Block>) returns (c: seq<Block>)
    ensures multiset(c) == multiset(a) + multiset(b)
  {
    var i, j := 0, 0;
    c := [];
    while i < |a| || j < |b|
      invariant i <= |a| && j <= |b| && multiset(c) == multiset(a[..i]) + multiset(b[..j])
      decreases |a| - i + |b| - j
    {
      var left: bool := *;
      if j == |b| || (left && i < |a|) {
        assert a[..i + 1] == a[..i] + [a[i]];
        c, i := c + [a[i]], i + 1;
      } else {
        assert b[..j + 1] == b[..j] + [b[j]];
        c, j := c + [b[j]], j + 1;
      }
    }
    assert a[..|a|] == a && b[..|b|] == b;
  }

  lemma WovenSink(digest: Digest, missing: seq<Hash>, sunk0: seq<Block>, a: seq<Block>, b: seq<Block>, c: seq<Block>)
    requires multiset(c) == multiset(a) + multiset(b)
    requires SinkOk(digest, missing, sunk0 + a + b)
    ensures SinkOk(digest, missing, sunk0 + c)
    ensures forall h :: h in Hashes(sunk0 + a + b) <==> h in Hashes(sunk0 + c)
  {
    var x, y := sunk0 + a + b, sunk0 + c;
    forall k: Block ensures k in x <==> k in y {
      assert k in c <==> k in multiset(c);
      assert k in a <==> k in multiset(a);
      assert k in b <==> k in multiset(b);
    }
    SameBlocks(x, y);
    SameBlocks(y, x);
  }

  lemma SameBlocks(x: seq<Block>, y: seq<Block>)
    requires forall k :: k in x ==> k in y
    ensures forall h :: h in Hashes(x) ==> h in Hashes(y)
  {
    forall h | h in Hashes(x)
      ensures h in Hashes(y)
    {
      var i :| 0 <= i < |x| && Hashes(x)[i] == h;
      assert x[i] in y;
      var j :| 0 <= j < |y| && y[j] == x[i];
      assert Hashes(y)[j] == h;
    }
  }

  /** Split what is left by responsibility. */
  method Partition(unresolved: seq<Hash>, duty: set<Hash>) returns (retry: seq<Hash>, blocked: seq<Hash>)
    ensures forall h :: h in retry <==> h in unresolved && h in duty
    ensures forall h :: h in blocked <==> h in unresolved && h !in duty
  {
    retry, blocked := [], [];
    for i := 0 to |unresolved|
      invariant forall h :: h in retry <==> h in unresolved[..i] && h in duty
      invariant forall h :: h in blocked <==> h in unresolved[..i] && h !in duty
    {
      assert unresolved[..i + 1] == unresolved[..i] + [unresolved[i]];
      if unresolved[i] in duty {
        retry := retry + [unresolved[i]];
      } else {
        blocked := blocked + [unresolved[i]];
      }
    }
    assert unresolved[..|unresolved|] == unresolved;
  }

  /** `sort_unstable` and `dedup`. */
  method SortDedup(hashes: seq<Hash>) returns (r: seq<Hash>)
    ensures Sorted(r) && Distinct(r) && forall h :: h in r <==> h in hashes
  {
    var once: seq<Hash> := [];
    for i := 0 to |hashes|
      invariant Distinct(once) && forall h :: h in once <==> h in hashes[..i]
    {
      assert hashes[..i + 1] == hashes[..i] + [hashes[i]];
      if hashes[i] !in once {
        once := once + [hashes[i]];
      }
    }
    assert hashes[..|hashes|] == hashes;
    r := SortHashes(once);
  }

  /** In both rounds the scheduler answers for every block and lists only usable addresses. */
  ghost predicate Steady(query: nat -> Query, wanted: set<Hash>) {
    forall round, h :: h in wanted && 0 <= round < 2 ==> Usable(query(round), h)
  }

  ghost predicate Usable(query: Query, h: Hash) {
    query(h).Some? && forall p, a :: p in query(h).value && a in p.addrs ==> a.Some?
  }

  lemma UsablePicked(query: Query, exclude: set<nat>, h: Hash, target: Target)
    requires Usable(query, h) && PickedFor(query, exclude, h, target)
    ensures target.addr.Some?
  {
    var candidates := Candidates(query(h).value, exclude);
    var p := candidates[h[0] % |candidates|];
    assert p in candidates && p.addrs[h[0] % |p.addrs|] in p.addrs;
  }

  // ---------- what the peers bring ----------

  /** The scheduler lists `t` for `h`. */
  ghost predicate Lists(query: Query, h: Hash, t: Target) {
    query(h).Some? &&
    exists p :: p in query(h).value && p.endpointValid && t.endpoint == p.endpoint && t.addr in p.addrs &&
      t.directOnly == p.directOnly
  }

  ghost function ListedBlocks(query: Query, wanted: set<Hash>, t: Target): set<Hash> {
    set h | h in wanted && Lists(query, h, t)
  }

  /** The source at `t` really has what it is listed for. */
  ghost predicate Honest(digest: Digest, query: Query, peers: Peers, wanted: set<Hash>, t: Target) {
    ListedBlocks(query, wanted, t) != {} ==> TrueTo(digest, peers(t), ListedBlocks(query, wanted, t))
  }

  ghost predicate HasCandidate(query: Query, h: Hash, exclude: set<nat>) {
    query(h).Some? && exists p :: p in query(h).value && p.addrs != [] && p.endpointValid && p.endpoint !in exclude
  }

  /** `h` has sources left and all of them are honest, but for those of one endpoint, which are dead. */
  ghost predicate AllButDead(digest: Digest, query: Query, peers: Peers, wanted: set<Hash>, exclude: set<nat>, h: Hash,
      dead: Option<nat>)
  {
    HasCandidate(query, h, exclude) &&
    forall t :: Lists(query, h, t) && t.endpoint !in exclude ==>
      if dead == Some(t.endpoint) then Dead(peers(t)) else Honest(digest, query, peers, wanted, t)
  }

  /** A round brings such a block or finds the dead endpoint out, and excludes no endpoint without fault. */
  ghost predicate RoundBrings(digest: Digest, query: Query, peers: Peers, missing: seq<Hash>, unresolved: seq<Hash>,
      exclude0: set<nat>, sunk: seq<Block>, next: seq<Hash>, exclude: set<nat>)
  {
    (forall h, dead :: h in unresolved && AllButDead(digest, query, peers, Elements(missing), exclude0, h, dead) ==>
       Brought(sunk, next, h) || FoundOut(exclude0, exclude, dead)) &&
    forall e :: e in exclude && e !in exclude0 ==>
      exists t: Target :: t.endpoint == e && !Honest(digest, query, peers, Elements(missing), t)
  }

  ghost predicate Brought(sunk: seq<Block>, next: seq<Hash>, h: Hash) {
    h in Hashes(sunk) && h !in next
  }

  ghost predicate FoundOut(exclude0: set<nat>, exclude: set<nat>, dead: Option<nat>) {
    dead.Some? && dead.value in exclude && dead.value !in exclude0
  }

  lemma PickedIsListed(query: Query, exclude: set<nat>, h: Hash, t: Target)
    requires PickedFor(query, exclude, h, t)
    ensures Lists(query, h, t) && t.endpoint !in exclude
  {
    var c := Candidates(query(h).value, exclude);
    var p := c[h[0] % |c|];
    assert p in c;
  }

  lemma CandidateIs(query: Query, h: Hash, exclude: set<nat>)
    requires query(h).Some?
    ensures Candidates(query(h).value, exclude) != [] <==> HasCandidate(query, h, exclude)
  {
    var c := Candidates(query(h).value, exclude);
    if c != [] { assert c[0] in c; }
    hide Candidates;
  }

  /** Blocks of one group are listed for its target. */
  lemma GroupListed(query: Query, exclude: set<nat>, groups: seq<Group>, i: nat, missing: seq<Hash>)
    requires Grouped(query, exclude, groups) && i < |groups| && forall h :: h in GroupHashes(groups) ==> h in missing
    ensures forall h :: h in groups[i].hashes ==> h in ListedBlocks(query, Elements(missing), groups[i].target)
    ensures groups[i].target.endpoint !in exclude
  {
    hide PickedFor;
    hide Lists;
    GroupWanted(groups, i, missing);
    assert groups[i].hashes[0] in groups[i].hashes;
    forall h | h in groups[i].hashes
      ensures Lists(query, h, groups[i].target) && groups[i].target.endpoint !in exclude
    {
      PickedIsListed(query, exclude, h, groups[i].target);
    }
  }

  lemma GroupWorks(query: Query, exclude: set<nat>, groups: seq<Group>, i: nat)
    requires Grouped(query, exclude, groups) && i < |groups|
    ensures groups[i].hashes != []
  {
    hide PickedFor;
  }

  lemma PickedOnce(query: Query, exclude: set<nat>, groups: seq<Group>, i: nat, j: nat, h: Hash)
    requires Grouped(query, exclude, groups) && i < |groups| && j < |groups|
    requires h in groups[i].hashes && h in groups[j].hashes
    ensures i == j
  {
    hide Candidates;
    assert PickedFor(query, exclude, h, groups[i].target) && PickedFor(query, exclude, h, groups[j].target);
    assert groups[i].target == groups[j].target;
  }

  /** One block of a round in which every listed source is honest or dead. */
  lemma BlockServed(digest: Digest, query: Query, peers: Peers, missing: seq<Hash>, exclude0: set<nat>,
      groups: seq<Group>, sunk0: set<Hash>, sunk: seq<Block>, left: seq<Hash>, exclude: set<nat>, h: Hash,
      dead: Option<nat>)
    requires Grouped(query, exclude0, groups) && forall k :: k in GroupHashes(groups) ==> k in missing
    requires Fetched(digest, peers, groups, |groups|, sunk0, sunk, left, exclude0, exclude)
    requires h in GroupHashes(groups) && AllButDead(digest, query, peers, Elements(missing), exclude0, h, dead)
    ensures Brought(sunk, left, h) || FoundOut(exclude0, exclude, dead)
  {
    hide Grouped;
    hide Lists;
    hide HasCandidate;
    hide Hashes;
    hide TrueTo;
    hide Dead;
    var g :| g in groups && h in g.hashes;
    var i :| 0 <= i < |groups| && groups[i] == g;
    GroupListed(query, exclude0, groups, i, missing);
    var r := Gets(digest, peers, g);
    if dead == Some(g.target.endpoint) {
      assert r.Broken? by { DeadBreaks(digest, peers(g.target), g.hashes); }
    } else {
      TrueDelivers(digest, peers(g.target), ListedBlocks(query, Elements(missing), g.target), g.hashes);
      hide ListedBlocks;
      hide Answer;
      if h in left {
        var j :| 0 <= j < |groups| && h in Left(groups[j].hashes, Gets(digest, peers, groups[j]));
        LeftAsked(digest, peers, groups[j], h);
        PickedOnce(query, exclude0, groups, i, j, h);
      }
    }
  }

  lemma DeadBreaks(digest: Digest, source: Source, hashes: seq<Hash>)
    requires Dead(source)
    ensures Answer(digest, source, hashes) == Broken([])
  {
  }

  lemma LeftAsked(digest: Digest, peers: Peers, g: Group, h: Hash)
    requires h in Left(g.hashes, Gets(digest, peers, g))
    ensures h in g.hashes
  {
    var room := AnswerAccounts(digest, peers(g.target), g.hashes);
    hide Answer;
    TransferCovers(digest, g.hashes, room, Gets(digest, peers, g));
  }

  /** An endpoint excluded by a round has a target that was not honest. */
  lemma BrokenNotHonest(digest: Digest, query: Query, peers: Peers, missing: seq<Hash>, exclude0: set<nat>,
      groups: seq<Group>, i: nat)
    requires Grouped(query, exclude0, groups) && i < |groups| && forall k :: k in GroupHashes(groups) ==> k in missing
    requires Gets(digest, peers, groups[i]).Broken?
    ensures !Honest(digest, query, peers, Elements(missing), groups[i].target)
  {
    hide Grouped;
    hide TrueTo;
    hide Answer;
    GroupListed(query, exclude0, groups, i, missing);
    var t := groups[i].target;
    assert groups[i].hashes != [] by { GroupWorks(query, exclude0, groups, i); }
    assert groups[i].hashes[0] in ListedBlocks(query, Elements(missing), t);
    if Honest(digest, query, peers, Elements(missing), t) {
      TrueDelivers(digest, peers(t), ListedBlocks(query, Elements(missing), t), groups[i].hashes);
    }
  }

  lemma RoundServed(digest: Digest, query: Query, peers: Peers, missing: seq<Hash>, unresolved: seq<Hash>,
      exclude0: set<nat>, groups: seq<Group>, unplaced: seq<Hash>, sunk0: set<Hash>, sunk: seq<Block>, left: seq<Hash>,
      exclude: set<nat>)
    requires Grouped(query, exclude0, groups) && forall k :: k in GroupHashes(groups) ==> k in missing
    requires forall h :: h in unresolved ==> query(h).Some?
    requires forall h :: h in GroupHashes(groups) <==> h in unresolved && Candidates(query(h).value, exclude0) != []
    requires forall h :: h in unplaced <==> h in unresolved && Candidates(query(h).value, exclude0) == []
    requires Fetched(digest, peers, groups, |groups|, sunk0, sunk, left, exclude0, exclude)
    ensures RoundBrings(digest, query, peers, missing, unresolved, exclude0, sunk, unplaced + left, exclude)
  {
    hide Grouped;
    hide Hashes;
    hide Candidates;
    hide Gets;
    hide Left;
    hide GroupHashes;
    hide Honest;
    forall h, dead | h in unresolved && AllButDead(digest, query, peers, Elements(missing), exclude0, h, dead)
      ensures Brought(sunk, unplaced + left, h) || FoundOut(exclude0, exclude, dead)
    {
      CandidateIs(query, h, exclude0);
      BlockServed(digest, query, peers, missing, exclude0, groups, sunk0, sunk, left, exclude, h, dead);
    }
    forall e | e in exclude && e !in exclude0
      ensures exists t: Target :: t.endpoint == e && !Honest(digest, query, peers, Elements(missing), t)
    {
      var i :| 0 <= i < |groups| && Gets(digest, peers, groups[i]).Broken? && groups[i].target.endpoint == e;
      BrokenNotHonest(digest, query, peers, missing, exclude0, groups, i);
    }
  }

  /** Without any group there was no candidate. */
  lemma NoneServed(digest: Digest, query: Query, peers: Peers, missing: seq<Hash>, unresolved: seq<Hash>,
      exclude: set<nat>, unplaced: seq<Hash>, sunk: seq<Block>)
    requires forall h :: h in unresolved ==> query(h).Some? && Candidates(query(h).value, exclude) == []
    ensures RoundBrings(digest, query, peers, missing, unresolved, exclude, sunk, unplaced, exclude)
  {
    hide Candidates;
    hide Lists;
    hide Honest;
    forall h | h in unresolved
      ensures !HasCandidate(query, h, exclude)
    {
      CandidateIs(query, h, exclude);
    }
  }

  datatype RoundResult = Went | NoPeers | Stopped(failure: Failure)

  /** One round over the peers. */
  method Round(digest: Digest, query: Query, peers: Peers, missing: seq<Hash>, unresolved: seq<Hash>,
      sunk0: seq<Block>, exclude0: set<nat>)
    returns (r: RoundResult, sunk: seq<Block>, next: seq<Hash>, exclude: set<nat>)
    requires Covered(missing, sunk0, unresolved) && SinkOk(digest, missing, sunk0)
    ensures SinkOk(digest, missing, sunk) && sunk0 <= sunk
    ensures r.Stopped? ==>
      (r.failure == QueryFailed || r.failure == NoDirectAddress) && exists h :: h in missing && !Usable(query, h)
    ensures !r.Stopped? ==> Covered(missing, sunk, next) && forall h :: h in next ==> h in unresolved
    ensures !r.Stopped? ==> RoundBrings(digest, query, peers, missing, unresolved, exclude0, sunk, next, exclude)
    ensures r == NoPeers ==> sunk == sunk0 && exclude == exclude0 && forall h :: h in next <==> h in unresolved
  {
    hide Hashes;
    hide Candidates;
    hide Pick;
    hide PickedFor;
    hide RoundBrings;
    hide Fetched;
    sunk, exclude := sunk0, exclude0;
    var ok, groups, unplaced := GroupByPeer(query, unresolved, exclude);
    if !ok { return Stopped(QueryFailed), sunk, unresolved, exclude; }
    if groups == [] {
      assert GroupHashes(groups) == {};
      NoneServed(digest, query, peers, missing, unresolved, exclude, unplaced, sunk);
      return NoPeers, sunk, unplaced, exclude;
    }
    var left;
    ok, sunk, left, exclude := FetchGroups(digest, peers, missing, groups, sunk, exclude);
    if !ok {
      var i :| 0 <= i < |groups| && groups[i].target.addr.None?;
      var h := groups[i].hashes[0];
      GroupMember(groups, i, h);
      if Usable(query, h) { UsablePicked(query, exclude0, h, groups[i].target); }
      return Stopped(NoDirectAddress), sunk, unresolved, exclude;
    }
    SunkGrows(sunk0, sunk);
    RoundServed(digest, query, peers, missing, unresolved, exclude0, groups, unplaced, Elements(Hashes(sunk0)), sunk,
      left, exclude);
    AllGrouped(digest, peers, groups, Elements(Hashes(sunk0)), sunk, left, exclude0, exclude);
    r, next := Went, unplaced + left;
  }

  /** Every grouped block is sunk or left, and nothing else is left. */
  lemma AllGrouped(digest: Digest, peers: Peers, groups: seq<Group>, sunk0: set<Hash>, sunk: seq<Block>,
      left: seq<Hash>, exclude0: set<nat>, exclude: set<nat>)
    requires Fetched(digest, peers, groups, |groups|, sunk0, sunk, left, exclude0, exclude)
    ensures forall h :: h in GroupHashes(groups) ==> h in Hashes(sunk) || h in left
    ensures forall h :: h in left ==> h in GroupHashes(groups)
  {
    hide Hashes;
    hide Answer;
    forall h | h in GroupHashes(groups)
      ensures h in Hashes(sunk) || h in left
    {
      var g :| g in groups && h in g.hashes;
      var i :| 0 <= i < |groups| && groups[i] == g;
      var room := AnswerAccounts(digest, peers(g.target), g.hashes);
      TransferCovers(digest, g.hashes, room, Gets(digest, peers, g));
    }
    forall h | h in left
      ensures h in GroupHashes(groups)
    {
      var i :| 0 <= i < |groups| && h in Left(groups[i].hashes, Gets(digest, peers, groups[i]));
      LeftAsked(digest, peers, groups[i], h);
      GroupMember(groups, i, h);
    }
  }

  /**
   * Two rounds bring block `h`: it has sources in the first, all honest, or all but those of one dead endpoint. Then in
   * the second all others are honest, and one of them has an endpoint without fault in the first round.
   */
  ghost predicate TwoRounds(digest: Digest, query: nat -> Query, peers: nat -> Peers, wanted: set<Hash>, h: Hash,
      dead: Option<nat>)
  {
    AllButDead(digest, query(0), peers(0), wanted, {}, h, dead) &&
    (dead.Some? ==>
       Faultless(digest, query, peers, wanted, h, dead.value) &&
       forall t :: Lists(query(1), h, t) && t.endpoint != dead.value ==>
         Honest(digest, query(1), peers(1), wanted, t))
  }

  ghost predicate Faultless(digest: Digest, query: nat -> Query, peers: nat -> Peers, wanted: set<Hash>, h: Hash,
      e: nat)
  {
    query(1)(h).Some? &&
    exists p :: p in query(1)(h).value && p.addrs != [] && p.endpointValid && p.endpoint != e &&
      forall t: Target :: t.endpoint == p.endpoint ==> Honest(digest, query(0), peers(0), wanted, t)
  }

  /** Every block is brought by the peers in two rounds. */
  ghost predicate PeersSuffice(digest: Digest, query: nat -> Query, peers: nat -> Peers, wanted: set<Hash>) {
    forall h :: h in wanted ==> exists dead :: TwoRounds(digest, query, peers, wanted, h, dead)
  }

  /** Where the blocks are after the first round. */
  ghost predicate AfterFirst(digest: Digest, query: nat -> Query, peers: nat -> Peers, missing: seq<Hash>,
      sunk: seq<Block>, unresolved: seq<Hash>, exclude: set<nat>)
  {
    (forall h, dead :: h in missing && TwoRounds(digest, query, peers, Elements(missing), h, dead) ==>
       Brought(sunk, unresolved, h) || FoundOut({}, exclude, dead)) &&
    forall x :: x in exclude ==>
      exists t: Target :: t.endpoint == x && !Honest(digest, query(0), peers(0), Elements(missing), t)
  }

  ghost predicate AfterSecond(digest: Digest, query: nat -> Query, peers: nat -> Peers, missing: seq<Hash>,
      sunk: seq<Block>, unresolved: seq<Hash>)
  {
    forall h, dead :: h in missing && TwoRounds(digest, query, peers, Elements(missing), h, dead) ==>
      Brought(sunk, unresolved, h)
  }

  lemma FirstRound(digest: Digest, query: nat -> Query, peers: nat -> Peers, missing: seq<Hash>, sunk: seq<Block>,
      next: seq<Hash>, exclude: set<nat>)
    requires RoundBrings(digest, query(0), peers(0), missing, missing, {}, sunk, next, exclude)
    ensures AfterFirst(digest, query, peers, missing, sunk, next, exclude)
  {
    hide Hashes;
    hide AllButDead;
    hide Honest;
    hide Faultless;
    hide Lists;
  }

  lemma SecondRound(digest: Digest, query: nat -> Query, peers: nat -> Peers, missing: seq<Hash>, sunk0: seq<Block>,
      unresolved: seq<Hash>, exclude0: set<nat>, sunk: seq<Block>, next: seq<Hash>, exclude: set<nat>)
    requires AfterFirst(digest, query, peers, missing, sunk0, unresolved, exclude0) && sunk0 <= sunk
    requires RoundBrings(digest, query(1), peers(1), missing, unresolved, exclude0, sunk, next, exclude)
    requires Covered(missing, sunk0, unresolved) && forall h :: h in next ==> h in unresolved
    ensures AfterSecond(digest, query, peers, missing, sunk, next)
  {
    hide Hashes;
    hide Honest;
    hide Lists;
    SunkGrows(sunk0, sunk);
    forall h, dead | h in missing && TwoRounds(digest, query, peers, Elements(missing), h, dead)
      ensures Brought(sunk, next, h)
    {
      if h in unresolved {
        var e := dead.value;
        var p :| p in query(1)(h).value && p.addrs != [] && p.endpointValid && p.endpoint != e &&
          forall t: Target :: t.endpoint == p.endpoint ==> Honest(digest, query(0), peers(0), Elements(missing), t);
        assert p.endpoint !in exclude0;
        assert AllButDead(digest, query(1), peers(1), Elements(missing), exclude0, h, None);
      }
    }
  }

  /** All blocks are sunk as soon as nothing is unresolved. */
  lemma AllResolved(digest: Digest, query: nat -> Query, peers: nat -> Peers, missing: seq<Hash>, sunk: seq<Block>,
      unresolved: seq<Hash>)
    requires Covered(missing, sunk, unresolved) && unresolved == []
    ensures AfterSecond(digest, query, peers, missing, sunk, unresolved)
  {
    hide Hashes;
    hide TwoRounds;
  }

  /**
   * Download `missing`. Success means every block reached the sink with verified bytes; only assigned blocks are ever
   * asked of the origin, each once, and only when every block outside the assignment has been sunk. When the
   * scheduler answers, every block is sunk whose peers are honest but for one dead endpoint; if that holds for all, the
   * download succeeds without the origin. An origin that has the blocks makes the download of assigned ones succeed
   * whatever the peers do.
   */
  method Download(digest: Digest, query: nat -> Query, peers: nat -> Peers, missing: seq<Hash>, duty: set<Hash>,
      origin: Option<Source>)
    returns (r: Outcome, sunk: seq<Block>, originAsked: seq<Hash>)
    ensures SinkOk(digest, missing, sunk)
    ensures r.Done? ==> (forall h :: h in missing ==> h in Hashes(sunk)) && r.downloaded == Hashes(sunk)
    ensures Distinct(originAsked) && forall h :: h in originAsked ==> h in duty && h in missing && origin.Some?
    ensures originAsked != [] ==> forall h :: h in missing && h !in duty ==> h in Hashes(sunk)
    ensures r == Error(WaitForOthers) ==> origin.Some? && exists h :: h in missing && h !in duty
    ensures r == Error(NoOrigin) ==> origin.None?
    ensures r == Error(QueryFailed) || r == Error(NoDirectAddress) ==> !Steady(query, Elements(missing))
    ensures Steady(query, Elements(missing)) ==>
      forall h, dead :: h in missing && TwoRounds(digest, query, peers, Elements(missing), h, dead) ==>
        h in Hashes(sunk) && h !in originAsked
    ensures Steady(query, Elements(missing)) && PeersSuffice(digest, query, peers, Elements(missing)) ==>
      r.Done? && originAsked == []
    ensures (Steady(query, Elements(missing)) && (forall h :: h in missing ==> h in duty) &&
             origin.Some? && TrueTo(digest, origin.value, Elements(missing))) ==> r.Done?
  {
    hide Hashes;
    hide Usable;
    hide SinkOk;
    hide Answer;
    hide TrueTo;
    hide TwoRounds;
    hide AfterFirst;
    hide RoundBrings;
    sunk, originAsked := [], [];
    assert Hashes([]) == [] by { HashesNone(); }
    assert SinkOk(digest, missing, []) by { EmptySink(digest, missing); }
    if missing == [] { return Done([]), sunk, originAsked; }
    var unresolved: seq<Hash>, exclude: set<nat> := missing, {};
    var round := 0;
    CoveredFirst(missing);
    while round < 2 && unresolved != []
      invariant round <= 2
      invariant Covered(missing, sunk, unresolved) && SinkOk(digest, missing, sunk)
      invariant round == 0 ==> unresolved == missing && exclude == {} && sunk == []
      invariant round == 1 ==> AfterFirst(digest, query, peers, missing, sunk, unresolved, exclude)
      invariant round == 2 ==> AfterSecond(digest, query, peers, missing, sunk, unresolved)
      decreases 2 - round
    {
      ghost var sunk0, unresolved0, exclude0 := sunk, unresolved, exclude;
      var result;
      result, sunk, unresolved, exclude :=
        Round(digest, query(round), peers(round), missing, unresolved, sunk, exclude);
      if result.Stopped? {
        assert forall h :: h in missing ==> h in Elements(missing);
        return Error(result.failure), sunk, originAsked;
      }
      if round == 0 {
        FirstRound(digest, query, peers, missing, sunk, unresolved, exclude);
      } else {
        SecondRound(digest, query, peers, missing, sunk0, unresolved0, exclude0, sunk, unresolved, exclude);
      }
      if result.NoPeers? {
        if round == 0 { NoFirstRound(digest, query, peers, missing, unresolved); }
        break;
      }
      round := round + 1;
    }
    if unresolved == [] { AllResolved(digest, query, peers, missing, sunk, unresolved); }
    assert AfterSecond(digest, query, peers, missing, sunk, unresolved);
    ghost var sunk1, unresolved1 := sunk, unresolved;
    if PeersSuffice(digest, query, peers, Elements(missing)) {
      NothingLeft(digest, query, peers, missing, sunk, unresolved);
    }
    var retry, blocked := Partition(unresolved, duty);
    if blocked != [] {
      assert blocked[0] in blocked;
      return Error(if origin.Some? then WaitForOthers else NoOrigin), sunk, originAsked;
    }
    forall h | h in missing && h !in Hashes(sunk)
      ensures h in retry
    {
      assert h in unresolved;
      assert h !in blocked;
    }
    if retry != [] {
      assert retry[0] in retry;
      if origin.None? { return Error(NoOrigin), sunk, originAsked; }
      retry := SortDedup(retry);
      originAsked := retry;
      var result := Transfer(digest, origin.value, retry);
      ghost var room := AnswerAccounts(digest, origin.value, retry);
      TransferCovers(digest, retry, room, result);
      HashesAppend(sunk, result.sunk);
      SinkGrows(digest, missing, sunk, retry, room, result);
      if TrueTo(digest, origin.value, Elements(missing)) {
        TrueDelivers(digest, origin.value, Elements(missing), retry);
      }
      sunk := sunk + result.sunk;
      if result.Broken? { return Error(OriginBroken), sunk, originAsked; }
      if result.failed != [] { return Error(StillMissing), sunk, originAsked; }
    }
    r := Done(Hashes(sunk));
  }

  lemma CoveredFirst(missing: seq<Hash>)
    ensures Covered(missing, [], missing)
  {
  }

  lemma NoFirstRound(digest: Digest, query: nat -> Query, peers: nat -> Peers, missing: seq<Hash>,
      unresolved: seq<Hash>)
    requires AfterFirst(digest, query, peers, missing, [], unresolved, {})
    ensures AfterSecond(digest, query, peers, missing, [], unresolved)
  {
    hide TwoRounds;
    HashesNone();
  }

  /** When the peers suffice nothing is left for the origin. */
  lemma NothingLeft(digest: Digest, query: nat -> Query, peers: nat -> Peers, missing: seq<Hash>, sunk: seq<Block>,
      unresolved: seq<Hash>)
    requires PeersSuffice(digest, query, peers, Elements(missing)) && Covered(missing, sunk, unresolved)
    requires AfterSecond(digest, query, peers, missing, sunk, unresolved)
    ensures unresolved == []
  {
    hide TwoRounds;
    hide Hashes;
    forall h | h in missing
      ensures h !in unresolved
    {
      assert h in Elements(missing);
      var dead :| TwoRounds(digest, query, peers, Elements(missing), h, dead);
    }
    if unresolved != [] { EveryListed(missing, sunk, unresolved); }
  }

  lemma EveryListed(missing: seq<Hash>, sunk: seq<Block>, unresolved: seq<Hash>)
    requires Covered(missing, sunk, unresolved) && unresolved != []
    ensures unresolved[0] in unresolved && unresolved[0] in missing
  {
  }

  lemma EmptySink(digest: Digest, missing: seq<Hash>)
    ensures SinkOk(digest, missing, [])
  {
  }

  lemma HashesNone()
    ensures Hashes([]) == []
  {
  }

  lemma SunkGrows(a: seq<Block>, b: seq<Block>)
    requires a <= b
    ensures forall h :: h in Hashes(a) ==> h in Hashes(b)
  {
    HashesAppend(a, b[|a|..]);
    assert a + b[|a|..] == b;
  }
}
