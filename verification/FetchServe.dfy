/** The block stream between a serving node and a fetching one. */
module FetchServe {
  import opened Common

  // ---------- the length word on the wire, most significant byte first ----------

  function BE32(n: nat): (b: Bytes)
    ensures |b| == 4
  {
    [n / 256 / 256 / 256 % 256, n / 256 / 256 % 256, n / 256 % 256, n % 256]
  }

  function FromBE32(b: Bytes): (n: nat)
    requires |b| == 4
    ensures n < TWO32
  {
    var b0: nat, b1: nat, b2: nat, b3: nat := b[0], b[1], b[2], b[3];
    b3 + 256 * (b2 + 256 * (b1 + 256 * b0))
  }

  lemma WireWord(n: nat)
    requires n < TWO32
    ensures FromBE32(BE32(n)) == n
  {
    var m := n / 256;
    var k := m / 256;
    assert k == k % 256 + 256 * (k / 256);
  }

  /** The first byte weighs most. */
  lemma WireOrder(n: nat)
    requires n < TWO32
    ensures var b := BE32(n);
            n == 0x100_0000 * (b[0] as int) + 0x1_0000 * (b[1] as int) + 0x100 * (b[2] as int) + b[3] as int
  {
    WireWord(n);
  }

  // ---------- serving ----------

  function Frame(data: Bytes): Bytes {
    BE32(|data|) + data
  }

  /** Answers in request order; the first block that is not held ends the stream. */
  function Serve(held: map<Hash, Bytes>, requests: seq<Hash>): Bytes {
    if requests == [] || requests[0] !in held then []
    else Frame(held[requests[0]]) + Serve(held, requests[1..])
  }

  /** How many requests are answered before the server stops. */
  function Served(held: map<Hash, Bytes>, requests: seq<Hash>): (n: nat)
    ensures n <= |requests|
    ensures forall i :: 0 <= i < n ==> requests[i] in held
    ensures n < |requests| ==> requests[n] !in held
  {
    if requests == [] || requests[0] !in held then 0 else 1 + Served(held, requests[1..])
  }

  method ServeRequests(held: map<Hash, Bytes>, requests: seq<Hash>) returns (sent: Bytes, ok: bool)
    ensures sent == Serve(held, requests)
    ensures ok <==> Served(held, requests) == |requests|
  {
    sent := [];
    assert requests[0..] == requests;
    hide *;
    for i := 0 to |requests|
      invariant Serve(held, requests) == sent + Serve(held, requests[i..])
      invariant Served(held, requests) == i + Served(held, requests[i..])
    {
      ServeOne(held, requests, i, sent);
      if requests[i] !in held { return sent, false; }
      var data := held[requests[i]];
      sent := sent + BE32(|data|);
      sent := sent + data;
    }
    ServeNone(held, requests);
    ok := true;
  }

  lemma ServeOne(held: map<Hash, Bytes>, requests: seq<Hash>, i: nat, sent: Bytes)
    requires i < |requests|
    ensures requests[i] !in held ==> Serve(held, requests[i..]) == [] && Served(held, requests[i..]) == 0
    ensures requests[i] !in held ==> sent + Serve(held, requests[i..]) == sent
    ensures requests[i] in held ==> Served(held, requests[i..]) == 1 + Served(held, requests[i + 1..])
    ensures requests[i] in held ==>
      var data := held[requests[i]];
      sent + Serve(held, requests[i..]) == sent + BE32(|data|) + data + Serve(held, requests[i + 1..])
  {
    hide BE32;
    assert requests[i..][1..] == requests[i + 1..];
    if requests[i] in held {
      var data, rest := held[requests[i]], Serve(held, requests[i + 1..]);
      assert Serve(held, requests[i..]) == BE32(|data|) + data + rest;
      JoinAssociates(sent, BE32(|data|) + data, rest);
      JoinAssociates(sent, BE32(|data|), data);
    }
  }

  lemma ServeNone(held: map<Hash, Bytes>, requests: seq<Hash>)
    ensures Serve(held, requests[|requests|..]) == [] && Served(held, requests[|requests|..]) == 0
  {
  }

  // ---------- fetching ----------

  /** What a fetch did: blocks handed to the sink, hashes to ask for again, or a broken transfer. */
  datatype FetchResult = Fetched(sunk: seq<Block>, failed: seq<Hash>) | Broken(sunk: seq<Block>)

  function Sunk(b: Block, r: FetchResult): FetchResult {
    match r
    case Fetched(sunk, failed) => Fetched([b] + sunk, failed)
    case Broken(sunk) => Broken([b] + sunk)
  }

  function Failed(h: Hash, r: FetchResult): FetchResult {
    match r
    case Fetched(sunk, failed) => Fetched(sunk, [h] + failed)
    case Broken(sunk) => r
  }

  /**
   * The client against any byte stream. A stream that ends before a length word fails the block and goes on, one that
   * ends inside the data breaks the transfer, wrong bytes fail the block. The sink accepts `room` blocks.
   */
  function Fetch(digest: Digest, requests: seq<Hash>, stream: Bytes, room: nat): FetchResult
    decreases |requests|
  {
    if requests == [] then Fetched([], [])
    else if |stream| < 4 then Failed(requests[0], Fetch(digest, requests[1..], [], room))
    else
      var end := 4 + FromBE32(stream[..4]);
      if |stream| < end then Broken([])
      else if digest(stream[4..end]) != requests[0] then
        Failed(requests[0], Fetch(digest, requests[1..], stream[end..], room))
      else if room == 0 then Broken([])
      else Sunk(Block(requests[0], stream[4..end]), Fetch(digest, requests[1..], stream[end..], room - 1))
  }

  function Join(sunk: seq<Block>, failed: seq<Hash>, r: FetchResult): FetchResult {
    match r
    case Fetched(s, f) => Fetched(sunk + s, failed + f)
    case Broken(s) => Broken(sunk + s)
  }

  lemma JoinSunk(sunk: seq<Block>, failed: seq<Hash>, b: Block, r: FetchResult)
    ensures Join(sunk, failed, Sunk(b, r)) == Join(sunk + [b], failed, r)
  {
    assert sunk + ([b] + r.sunk) == (sunk + [b]) + r.sunk;
  }

  lemma JoinFailed(sunk: seq<Block>, failed: seq<Hash>, h: Hash, r: FetchResult)
    ensures Join(sunk, failed, Failed(h, r)) == Join(sunk, failed + [h], r)
  {
    if r.Fetched? {
      assert failed + ([h] + r.failed) == (failed + [h]) + r.failed;
    }
  }

  lemma JoinEnd(sunk: seq<Block>, failed: seq<Hash>)
    ensures Join(sunk, failed, Broken([])) == Broken(sunk)
    ensures Join(sunk, failed, Fetched([], [])) == Fetched(sunk, failed)
  {
    assert sunk + [] == sunk && failed + [] == failed;
  }

  /** The next answer on the stream: no length word left, data cut off, or the data of one block. */
  datatype Answer = NoWord | CutOff | Arrived(data: Bytes)

  function NextAnswer(stream: Bytes, pos: nat): (Answer, nat)
    requires pos <= |stream|
    ensures NextAnswer(stream, pos).1 <= |stream|
  {
    if |stream| - pos < 4 then (NoWord, |stream|)
    else
      var end := pos + 4 + FromBE32(stream[pos..pos + 4]);
      if end > |stream| then (CutOff, |stream|) else (Arrived(stream[pos + 4..end]), end)
  }

  method FetchChunks(digest: Digest, requests: seq<Hash>, stream: Bytes, room: nat) returns (r: FetchResult)
    ensures r == Fetch(digest, requests, stream, room)
  {
    var sunk: seq<Block>, failed: seq<Hash>, pos: nat := [], [], 0;
    var left := room;
    FetchStart(digest, requests, stream, room);
    hide *;
    for i := 0 to |requests|
      invariant pos <= |stream|
      invariant Fetch(digest, requests, stream, room)
           == Join(sunk, failed, Fetch(digest, requests[i..], stream[pos..], left))
    {
      FetchAt(digest, requests, i, stream, pos, left);
      var (answer, next) := NextAnswer(stream, pos);
      pos := next;
      if answer == CutOff {
        JoinEnd(sunk, failed);
        return Broken(sunk);
      }
      if answer == NoWord || digest(answer.data) != requests[i] {
        JoinFailed(sunk, failed, requests[i], Fetch(digest, requests[i + 1..], stream[pos..], left));
        failed := failed + [requests[i]];
      } else if left == 0 {
        JoinEnd(sunk, failed);
        return Broken(sunk);
      } else {
        JoinSunk(sunk, failed, Block(requests[i], answer.data),
          Fetch(digest, requests[i + 1..], stream[pos..], left - 1));
        sunk, left := sunk + [Block(requests[i], answer.data)], left - 1;
      }
    }
    NoRequests(digest, stream[pos..], left);
    JoinEnd(sunk, failed);
    r := Fetched(sunk, failed);
  }

  lemma FetchStart(digest: Digest, requests: seq<Hash>, stream: Bytes, room: nat)
    ensures Fetch(digest, requests, stream, room) == Join([], [], Fetch(digest, requests[0..], stream[0..], room))
  {
    hide Fetch;
    assert requests[0..] == requests && stream[0..] == stream;
  }

  /** One turn of the client loop, at request `i` and byte `pos`. */
  lemma FetchAt(digest: Digest, requests: seq<Hash>, i: nat, stream: Bytes, pos: nat, left: nat)
    requires i < |requests| && pos <= |stream|
    ensures var (answer, next) := NextAnswer(stream, pos);
      Fetch(digest, requests[i..], stream[pos..], left)
      == if answer == CutOff then Broken([])
         else if answer == NoWord || digest(answer.data) != requests[i] then
           Failed(requests[i], Fetch(digest, requests[i + 1..], stream[next..], left))
         else if left == 0 then Broken([])
         else Sunk(Block(requests[i], answer.data), Fetch(digest, requests[i + 1..], stream[next..], left - 1))
  {
    hide FromBE32;
    hide Failed;
    hide Sunk;
    var reqs, rest := requests[i..], stream[pos..];
    assert reqs[0] == requests[i] && reqs[1..] == requests[i + 1..];
    if |rest| >= 4 {
      assert rest[..4] == stream[pos..pos + 4];
      var end := 4 + FromBE32(rest[..4]);
      if end <= |rest| {
        assert rest[4..end] == stream[pos + 4..pos + end] && rest[end..] == stream[pos + end..];
      }
    }
  }

  // ---------- what any stream can do ----------

  function Hashes(blocks: seq<Block>): (hs: seq<Hash>)
    ensures |hs| == |blocks| && forall i :: 0 <= i < |hs| ==> hs[i] == blocks[i].hash
  {
    if blocks == [] then [] else [blocks[0].hash] + Hashes(blocks[1..])
  }

  /** The result splits the request: everything is sunk or failed, or the transfer broke after a part of it. */
  ghost predicate Accounts(digest: Digest, requests: seq<Hash>, room: nat, r: FetchResult) {
    Verified(digest, r.sunk) && |r.sunk| <= room &&
    (r.Fetched? ==> multiset(Hashes(r.sunk)) + multiset(r.failed) == multiset(requests)) &&
    (r.Broken? ==> multiset(Hashes(r.sunk)) <= multiset(requests))
  }

  lemma AccountsFailed(digest: Digest, h: Hash, rest: seq<Hash>, room: nat, r: FetchResult)
    requires Accounts(digest, rest, room, r)
    ensures Accounts(digest, [h] + rest, room, Failed(h, r))
  {
    assert multiset([h] + rest) == multiset{h} + multiset(rest);
    if r.Fetched? {
      assert multiset([h] + r.failed) == multiset{h} + multiset(r.failed);
    }
  }

  lemma AccountsSunk(digest: Digest, b: Block, rest: seq<Hash>, room: nat, r: FetchResult)
    requires Accounts(digest, rest, room, r) && digest(b.data) == b.hash && |b.data| < TWO32
    ensures Accounts(digest, [b.hash] + rest, room + 1, Sunk(b, r))
  {
    assert multiset([b.hash] + rest) == multiset{b.hash} + multiset(rest);
    HashesCons(b, r.sunk);
    assert multiset([b.hash] + Hashes(r.sunk)) == multiset{b.hash} + multiset(Hashes(r.sunk));
  }

  lemma AccountsNothing(digest: Digest, requests: seq<Hash>, room: nat)
    ensures Accounts(digest, requests, room, Broken([]))
    ensures requests == [] ==> Accounts(digest, requests, room, Fetched([], []))
  {
  }

  /** Against any stream whatever: requests are accounted for and only verified bytes ever reach the sink. */
  lemma {:induction false} FetchAccounts(digest: Digest, requests: seq<Hash>, stream: Bytes, room: nat)
    ensures Accounts(digest, requests, room, Fetch(digest, requests, stream, room))
    decreases |requests|
  {
    hide FromBE32;
    hide Accounts;
    hide Sunk;
    hide Failed;
    AccountsNothing(digest, requests, room);
    if requests != [] {
      var h, rest := requests[0], requests[1..];
      assert requests == [h] + rest;
      if |stream| < 4 {
        FetchAccounts(digest, rest, [], room);
        AccountsFailed(digest, h, rest, room, Fetch(digest, rest, [], room));
      } else {
        var end := 4 + FromBE32(stream[..4]);
        if end <= |stream| {
          if digest(stream[4..end]) != h {
            FetchAccounts(digest, rest, stream[end..], room);
            AccountsFailed(digest, h, rest, room, Fetch(digest, rest, stream[end..], room));
          } else if room > 0 {
            FetchAccounts(digest, rest, stream[end..], room - 1);
            AccountsSunk(digest, Block(h, stream[4..end]), rest, room - 1,
              Fetch(digest, rest, stream[end..], room - 1));
          }
        }
      }
    }
  }

  lemma HashesCons(b: Block, blocks: seq<Block>)
    ensures Hashes([b] + blocks) == [b.hash] + Hashes(blocks)
  {
    assert ([b] + blocks)[1..] == blocks;
  }

  // ---------- fetching from an honest server over a stream cut anywhere ----------

  ghost predicate Genuine(digest: Digest, held: map<Hash, Bytes>) {
    forall h :: h in held ==> digest(held[h]) == h && |held[h]| < TWO32
  }

  /** How many answers arrive whole within the first `k` bytes, and how many bytes they take. */
  function Whole(held: map<Hash, Bytes>, requests: seq<Hash>, k: nat): (n: nat)
    ensures n <= |requests|
  {
    if requests == [] || requests[0] !in held || k < 4 + |held[requests[0]]| then 0
    else 1 + Whole(held, requests[1..], k - 4 - |held[requests[0]]|)
  }

  function Blocks(held: map<Hash, Bytes>, requests: seq<Hash>, n: nat): seq<Block>
    requires n <= |requests| && forall i :: 0 <= i < n ==> requests[i] in held
  {
    if n == 0 then [] else [Block(requests[0], held[requests[0]])] + Blocks(held, requests[1..], n - 1)
  }

  function FrameBytes(held: map<Hash, Bytes>, requests: seq<Hash>, n: nat): nat
    requires n <= |requests| && forall i :: 0 <= i < n ==> requests[i] in held
  {
    if n == 0 then 0 else 4 + |held[requests[0]]| + FrameBytes(held, requests[1..], n - 1)
  }

  lemma {:induction false} WholeHeld(held: map<Hash, Bytes>, requests: seq<Hash>, k: nat)
    ensures forall i :: 0 <= i < Whole(held, requests, k) ==> requests[i] in held
    ensures FrameBytes(held, requests, Whole(held, requests, k)) <= k
  {
    if requests != [] && requests[0] in held && k >= 4 + |held[requests[0]]| {
      WholeHeld(held, requests[1..], k - 4 - |held[requests[0]]|);
      var n := Whole(held, requests, k);
      forall i | 0 <= i < n
        ensures requests[i] in held
      {
        if i > 0 { assert requests[i] == requests[1..][i - 1]; }
      }
    }
  }

  /** The genuine ones of the first `n` answers, and the requests whose answer is wrong. */
  function GoodBlocks(digest: Digest, held: map<Hash, Bytes>, requests: seq<Hash>, n: nat): seq<Block>
    requires n <= |requests| && forall i :: 0 <= i < n ==> requests[i] in held
  {
    if n == 0 then []
    else
      var rest := GoodBlocks(digest, held, requests[1..], n - 1);
      if digest(held[requests[0]]) == requests[0] then [Block(requests[0], held[requests[0]])] + rest else rest
  }

  function BadAnswers(digest: Digest, held: map<Hash, Bytes>, requests: seq<Hash>, n: nat): seq<Hash>
    requires n <= |requests| && forall i :: 0 <= i < n ==> requests[i] in held
  {
    if n == 0 then []
    else
      var rest := BadAnswers(digest, held, requests[1..], n - 1);
      if digest(held[requests[0]]) == requests[0] then rest else [requests[0]] + rest
  }

  /**
   * The outcome for a stream that breaks off after `k` bytes: genuine blocks go into the sink until it refuses one,
   * wrong answers are failed with what was not answered, and a cut inside a block breaks the transfer.
   */
  function CutOutcome(digest: Digest, held: map<Hash, Bytes>, requests: seq<Hash>, k: nat, room: nat): FetchResult
    requires forall i :: 0 <= i < Whole(held, requests, k) ==> requests[i] in held
    requires FrameBytes(held, requests, Whole(held, requests, k)) <= k
  {
    var n := Whole(held, requests, k);
    var good := GoodBlocks(digest, held, requests, n);
    if |good| > room then Broken(good[..room])
    else if n == |requests| || k - FrameBytes(held, requests, n) < 4 then
      Fetched(good, BadAnswers(digest, held, requests, n) + requests[n..])
    else Broken(good)
  }

  lemma {:induction false} FetchNothing(digest: Digest, requests: seq<Hash>, room: nat)
    ensures Fetch(digest, requests, [], room) == Fetched([], requests)
    decreases |requests|
  {
    if requests != [] {
      FetchNothing(digest, requests[1..], room);
      assert requests == [requests[0]] + requests[1..];
    }
  }

  /**
   * Fetching over a stream cut after any number of bytes, from a server that may hold wrong bytes, into a sink that may
   * refuse: of the answers that arrived whole the genuine ones are sunk, in order, and the others failed; what was not
   * answered is failed when the cut falls between two answers or inside a length word, and the transfer is broken when
   * it falls inside a block or at the first genuine block that finds no room.
   */
  lemma {:induction false} FetchOverCut(digest: Digest, held: map<Hash, Bytes>, requests: seq<Hash>, k: nat, room: nat)
    requires FitWire(held) && k <= |Serve(held, requests)|
    ensures (forall i :: 0 <= i < Whole(held, requests, k) ==> requests[i] in held) &&
            FrameBytes(held, requests, Whole(held, requests, k)) <= k
    ensures Fetch(digest, requests, Serve(held, requests)[..k], room) == CutOutcome(digest, held, requests, k, room)
    decreases |requests|
  {
    hide Fetch;
    hide Serve;
    hide CutOutcome;
    WholeHeld(held, requests, k);
    if requests == [] {
      NoOutcome(digest, held, k, room);
      NoRequests(digest, Serve(held, requests)[..k], room);
    } else if k < 4 {
      FetchNothing(digest, requests[1..], room);
      ShortWord(digest, requests, Serve(held, requests)[..k], room);
      ShortOutcome(digest, held, requests, k, room);
    } else {
      NonEmptyServe(held, requests);
      var data, rest := held[requests[0]], requests[1..];
      FrontFrame(held, requests, k);
      FetchFront(digest, held, requests, Serve(held, requests)[..k], room);
      if k >= 4 + |data| {
        var good := digest(data) == requests[0];
        var room' := if good && room > 0 then room - 1 else room;
        FetchOverCut(digest, held, rest, k - 4 - |data|, room');
        WholeHeld(held, rest, k - 4 - |data|);
        CutFront(digest, held, requests, k, room);
      } else {
        ShortOutcome(digest, held, requests, k, room);
      }
    }
  }

  ghost predicate FitWire(held: map<Hash, Bytes>) {
    forall h :: h in held ==> |held[h]| < TWO32
  }

  lemma NoOutcome(digest: Digest, held: map<Hash, Bytes>, k: nat, room: nat)
    ensures CutOutcome(digest, held, [], k, room) == Fetched([], [])
  {
  }

  /** Before the first answer is there. */
  lemma ShortOutcome(digest: Digest, held: map<Hash, Bytes>, requests: seq<Hash>, k: nat, room: nat)
    requires requests != [] && (k < 4 || (requests[0] in held && k < 4 + |held[requests[0]]|))
    ensures Whole(held, requests, k) == 0
    ensures CutOutcome(digest, held, requests, k, room) == if k < 4 then Fetched([], requests) else Broken([])
  {
    assert [] + requests[0..] == requests;
  }

  lemma NoRequests(digest: Digest, stream: Bytes, room: nat)
    ensures Fetch(digest, [], stream, room) == Fetched([], [])
  {
  }

  lemma ShortWord(digest: Digest, requests: seq<Hash>, stream: Bytes, room: nat)
    requires requests != [] && |stream| < 4 && Fetch(digest, requests[1..], [], room) == Fetched([], requests[1..])
    ensures Fetch(digest, requests, stream, room) == Fetched([], requests)
  {
    assert requests == [requests[0]] + requests[1..];
  }

  lemma NonEmptyServe(held: map<Hash, Bytes>, requests: seq<Hash>)
    requires requests != []
    ensures |Serve(held, requests)| >= 4 ==> requests[0] in held
  {
  }

  /** The first whole answer and the rest. */
  lemma CutFront(digest: Digest, held: map<Hash, Bytes>, requests: seq<Hash>, k: nat, room: nat)
    requires requests != [] && requests[0] in held && k >= 4 + |held[requests[0]]|
    requires forall i :: 0 <= i < Whole(held, requests, k) ==> requests[i] in held
    requires FrameBytes(held, requests, Whole(held, requests, k)) <= k
    requires var k' := k - 4 - |held[requests[0]]|;
             (forall i :: 0 <= i < Whole(held, requests[1..], k') ==> requests[1..][i] in held) &&
             FrameBytes(held, requests[1..], Whole(held, requests[1..], k')) <= k'
    ensures var data, k' := held[requests[0]], k - 4 - |held[requests[0]]|;
            CutOutcome(digest, held, requests, k, room)
            == if digest(data) != requests[0] then
              Failed(requests[0], CutOutcome(digest, held, requests[1..], k', room))
               else if room == 0 then Broken([])
               else Sunk(Block(requests[0], data), CutOutcome(digest, held, requests[1..], k', room - 1))
  {
    var n, data, rest := Whole(held, requests, k), held[requests[0]], requests[1..];
    var k' := k - 4 - |data|;
    assert requests[n..] == rest[n - 1..];
    assert Whole(held, rest, k') == n - 1;
    assert k - FrameBytes(held, requests, n) == k' - FrameBytes(held, rest, n - 1);
    hide Whole;
    hide FrameBytes;
    var good, bad := GoodBlocks(digest, held, rest, n - 1), BadAnswers(digest, held, rest, n - 1);
    if digest(data) == requests[0] {
      var b := Block(requests[0], data);
      assert GoodBlocks(digest, held, requests, n) == [b] + good && BadAnswers(digest, held, requests, n) == bad;
      hide GoodBlocks;
      hide BadAnswers;
      if room > 0 && |good| > room - 1 { assert ([b] + good)[..room] == [b] + good[..room - 1]; }
    } else {
      assert GoodBlocks(digest, held, requests, n) == good;
      assert BadAnswers(digest, held, requests, n) == [requests[0]] + bad;
      hide GoodBlocks;
      hide BadAnswers;
      JoinAssociates([requests[0]], bad, requests[n..]);
    }
  }

  /** The client's first step on a stream that starts with the answer to its first request. */
  lemma FetchFront(digest: Digest, held: map<Hash, Bytes>, requests: seq<Hash>, stream: Bytes, room: nat)
    requires requests != [] && requests[0] in held
    requires |stream| >= 4 && FromBE32(stream[..4]) == |held[requests[0]]|
    requires |stream| >= 4 + |held[requests[0]]| ==> stream[4..4 + |held[requests[0]]|] == held[requests[0]]
    ensures var data := held[requests[0]];
            Fetch(digest, requests, stream, room)
            == if |stream| < 4 + |data| then Broken([])
               else if digest(data) != requests[0] then
                 Failed(requests[0], Fetch(digest, requests[1..], stream[4 + |data|..], room))
               else if room == 0 then Broken([])
               else Sunk(Block(requests[0], data), Fetch(digest, requests[1..], stream[4 + |data|..], room - 1))
  {
    assert stream[0..] == stream && requests[0..] == requests;
    FetchAt(digest, requests, 0, stream, 0, room);
    hide FromBE32;
    hide Fetch;
    hide Sunk;
    hide Failed;
  }

  lemma CutFrame(word: Bytes, data: Bytes, tail: Bytes, k: nat)
    requires |word| == 4 && 4 + |data| <= k <= 4 + |data| + |tail|
    ensures var cut := (word + data + tail)[..k];
            cut[4..4 + |data|] == data && cut[4 + |data|..] == tail[..k - 4 - |data|]
  {
    var all := word + data + tail;
    assert all[4..4 + |data|] == data && all[4 + |data|..] == tail;
    assert all[..k][4 + |data|..] == all[4 + |data|..][..k - 4 - |data|];
  }

  lemma FrontFrame(held: map<Hash, Bytes>, requests: seq<Hash>, k: nat)
    requires requests != [] && requests[0] in held && |held[requests[0]]| < TWO32 && 4 <= k <= |Serve(held, requests)|
    ensures var stream, data := Serve(held, requests)[..k], held[requests[0]];
            FromBE32(stream[..4]) == |data| &&
            (k >= 4 + |data| ==> stream[4..4 + |data|] == data
                                 && k - 4 - |data| <= |Serve(held, requests[1..])|
                                 && stream[4 + |data|..] == Serve(held, requests[1..])[..k - 4 - |data|])
  {
    hide FromBE32;
    hide BE32;
    var data, tail := held[requests[0]], Serve(held, requests[1..]);
    assert Serve(held, requests) == BE32(|data|) + data + tail;
    assert Serve(held, requests)[..k][..4] == BE32(|data|);
    WireWord(|data|);
    if k >= 4 + |data| {
      CutFrame(BE32(|data|), data, tail, k);
    }
  }

  lemma ServeLength(held: map<Hash, Bytes>, requests: seq<Hash>)
    ensures requests == [] || requests[0] !in held ==> Serve(held, requests) == []
    ensures requests != [] && requests[0] in held ==>
      |Serve(held, requests)| == 4 + |held[requests[0]]| + |Serve(held, requests[1..])|
  {
    hide BE32;
  }

  lemma {:induction false} WholeAll(held: map<Hash, Bytes>, requests: seq<Hash>)
    ensures Whole(held, requests, |Serve(held, requests)|) == Served(held, requests)
    ensures FrameBytes(held, requests, Served(held, requests)) == |Serve(held, requests)|
  {
    ServeLength(held, requests);
    hide Serve;
    if requests != [] && requests[0] in held {
      WholeAll(held, requests[1..]);
    }
  }

  lemma {:induction false} AllGood(digest: Digest, held: map<Hash, Bytes>, requests: seq<Hash>, n: nat)
    requires Genuine(digest, held) && n <= |requests| && forall i :: 0 <= i < n ==> requests[i] in held
    ensures GoodBlocks(digest, held, requests, n) == Blocks(held, requests, n)
    ensures BadAnswers(digest, held, requests, n) == [] && |Blocks(held, requests, n)| == n
  {
    if n > 0 {
      AllGood(digest, held, requests[1..], n - 1);
    }
  }

  /** Without a cut the client gets the longest prefix of the request that the server holds, and fails the rest. */
  lemma FetchWithoutCut(digest: Digest, held: map<Hash, Bytes>, requests: seq<Hash>, room: nat)
    requires Genuine(digest, held) && room >= |requests|
    ensures var n := Served(held, requests);
            Fetch(digest, requests, Serve(held, requests), room) == Fetched(Blocks(held, requests, n), requests[n..])
  {
    hide Fetch;
    hide Serve;
    var all, n := Serve(held, requests), Served(held, requests);
    assert all[..|all|] == all;
    FetchOverCut(digest, held, requests, |all|, room);
    WholeAll(held, requests);
    AllGood(digest, held, requests, n);
    assert [] + requests[n..] == requests[n..];
  }
}
