/** Dealing pending blocks out to peers and taking back what a failed peer did not finish. */
module DownloadManager {
  import opened Common

  type Plan = map<nat, seq<Hash>>

  ghost function Outstanding(plan: Plan): set<Hash> {
    set p, h | p in plan && h in plan[p] :: h
  }

  /** Every block is with one peer, once. */
  ghost predicate OnePeerEach(plan: Plan) {
    (forall p :: p in plan ==> Distinct(plan[p])) &&
    forall p, q, h :: p in plan && q in plan && h in plan[p] && h in plan[q] ==> p == q
  }

  /** The share of peer `p` when a list is dealt round-robin to `n` peers. */
  function Share(hashes: seq<Hash>, n: nat, p: nat): seq<Hash>
    requires n > 0
    decreases |hashes|
  {
    if hashes == [] then []
    else
      var last := |hashes| - 1;
      Share(hashes[..last], n, p) + (if last % n == p then [hashes[last]] else [])
  }

  /** Dealing gives every peer the rounded-up or rounded-down fraction of the list. */
  lemma {:induction false} ShareSize(hashes: seq<Hash>, n: nat, p: nat)
    requires n > 0 && p < n
    ensures |Share(hashes, n, p)| == |hashes| / n + (if p < |hashes| % n then 1 else 0)
    decreases |hashes|
  {
    if hashes != [] {
      var last := |hashes| - 1;
      ShareSize(hashes[..last], n, p);
      NextDivMod(last, n);
    }
  }

  /** The `k`-th block of peer `p` is number `k * n + p` of the list. */
  lemma {:induction false} ShareAt(hashes: seq<Hash>, n: nat, p: nat, k: nat)
    requires n > 0 && p < n && k < |Share(hashes, n, p)|
    ensures n * k + p < |hashes| && Share(hashes, n, p)[k] == hashes[n * k + p]
    decreases |hashes|
  {
    var last := |hashes| - 1;
    var before := Share(hashes[..last], n, p);
    ShareSize(hashes[..last], n, p);
    ShareLast(hashes, n, p);
    hide Share;
    if k < |before| {
      ShareAt(hashes[..last], n, p, k);
    } else {
      Quotient(last, n);
    }
  }

  lemma ShareLast(hashes: seq<Hash>, n: nat, p: nat)
    requires n > 0 && hashes != []
    ensures var last := |hashes| - 1;
            Share(hashes, n, p) == Share(hashes[..last], n, p) + (if last % n == p then [hashes[last]] else [])
  {
  }

  lemma Quotient(a: nat, n: nat)
    requires n > 0
    ensures n * (a / n) + a % n == a
  {
  }

  /** One of the first `m` blocks is `h` and was dealt to `p`. */
  ghost predicate DealtTo(hashes: seq<Hash>, m: nat, n: nat, p: nat, h: Hash)
    requires n > 0 && m <= |hashes|
  {
    exists i :: 0 <= i < m && hashes[i] == h && i % n == p
  }

  lemma {:induction false} ShareMember(hashes: seq<Hash>, n: nat, p: nat, h: Hash)
    requires n > 0
    ensures h in Share(hashes, n, p) <==> DealtTo(hashes, |hashes|, n, p, h)
    decreases |hashes|
  {
    if hashes != [] {
      var last := |hashes| - 1;
      ShareMember(hashes[..last], n, p, h);
      DealtLast(hashes, last, n, p, h);
      hide DealtTo;
    }
  }

  lemma DealtLast(hashes: seq<Hash>, last: nat, n: nat, p: nat, h: Hash)
    requires n > 0 && |hashes| == last + 1
    ensures DealtTo(hashes, last + 1, n, p, h)
         <==> DealtTo(hashes[..last], last, n, p, h) || (hashes[last] == h && last % n == p)
  {
  }

  lemma {:induction false} ShareDistinct(hashes: seq<Hash>, n: nat, p: nat)
    requires n > 0 && Distinct(hashes)
    ensures Distinct(Share(hashes, n, p))
    decreases |hashes|
  {
    if hashes != [] {
      var last := |hashes| - 1;
      ShareDistinct(hashes[..last], n, p);
      ShareMember(hashes[..last], n, p, hashes[last]);
    }
  }

  /** A plan that deals `hashes` to `n` peers; a peer without blocks has no entry. */
  ghost predicate Deals(plan: Plan, hashes: seq<Hash>, n: nat)
    requires n > 0
  {
    forall p :: (p in plan <==> Share(hashes, n, p) != []) && (p in plan ==> plan[p] == Share(hashes, n, p))
  }

  lemma DealsAll(plan: Plan, hashes: seq<Hash>, n: nat)
    requires n > 0 && Distinct(hashes) && Deals(plan, hashes, n)
    ensures OnePeerEach(plan) && Outstanding(plan) == Elements(hashes)
    ensures forall p :: p in plan ==> p < n && |hashes| / n <= |plan[p]| <= |hashes| / n + 1
  {
    hide Share;
    forall p | p in plan
      ensures Distinct(plan[p]) && p < n && |hashes| / n <= |plan[p]| <= |hashes| / n + 1
    {
      ShareDistinct(hashes, n, p);
      ShareMember(hashes, n, p, plan[p][0]);
      ShareSize(hashes, n, p);
    }
    forall p, q, h | p in plan && q in plan && h in plan[p] && h in plan[q]
      ensures p == q
    {
      ShareMember(hashes, n, p, h);
      ShareMember(hashes, n, q, h);
    }
    forall h: Hash
      ensures h in Outstanding(plan) <==> h in hashes
    {
      if h in hashes {
        var i :| 0 <= i < |hashes| && hashes[i] == h;
        ShareMember(hashes, n, i % n, h);
        assert i % n in plan && h in plan[i % n];
      }
      if h in Outstanding(plan) {
        var p :| p in plan && h in plan[p];
        ShareMember(hashes, n, p, h);
      }
    }
  }

  lemma DealOne(plan: Plan, hashes: seq<Hash>, n: nat, i: nat)
    requires n > 0 && i < |hashes| && Deals(plan, hashes[..i], n)
    ensures var p := i % n;
            Deals(plan[p := (if p in plan then plan[p] else []) + [hashes[i]]], hashes[..i + 1], n)
  {
    assert hashes[..i + 1][..i] == hashes[..i];
    assert forall q ::
      Share(hashes[..i + 1], n, q) == Share(hashes[..i], n, q) + (if i % n == q then [hashes[i]] else []);
    hide Share;
  }

  lemma NothingDealt()
    ensures OnePeerEach(map[]) && Outstanding(map[]) == {}
  {
  }

  method Deal(sorted: seq<Hash>, peerCount: nat) returns (plan: Plan)
    requires peerCount > 0
    ensures Deals(plan, sorted, peerCount)
  {
    plan := map[];
    assert Deals(plan, sorted[..0], peerCount);
    hide Deals;
    for i := 0 to |sorted|
      invariant Deals(plan, sorted[..i], peerCount)
    {
      DealOne(plan, sorted, peerCount, i);
      var peer := i % peerCount;
      plan := plan[peer := (if peer in plan then plan[peer] else []) + [sorted[i]]];
    }
    assert sorted[..|sorted|] == sorted;
  }

  class DownloadManager {
    var pending: set<Hash>
    var dealt: Plan
    ghost var done: set<Hash>

    /** Pending, dealt and done blocks partition the blocks the manager started with. */
    ghost predicate Valid(all: set<Hash>)
      reads this
    {
      OnePeerEach(dealt) && pending + Outstanding(dealt) + done == all &&
      pending !! Outstanding(dealt) && pending !! done && Outstanding(dealt) !! done
    }

    constructor (chunks: seq<Hash>)
      ensures Valid(Elements(chunks)) && pending == Elements(chunks) && dealt == map[] && done == {}
    {
      pending := set h | h in chunks;
      dealt, done := map[], {};
    }

    /**
     * Deal everything pending round-robin. The previous plan is replaced: the partition survives exactly when nothing
     * of it was outstanding.
     */
    method Assign(peerCount: nat, ghost all: set<Hash>) returns (plan: Plan, ghost order: seq<Hash>)
      requires Valid(all) && (pending != {} ==> peerCount > 0)
      modifies this
      ensures pending == {} && dealt == plan && done == old(done)
      ensures Sorted(order) && Distinct(order) && Elements(order) == old(pending)
      ensures peerCount > 0 ==> Deals(plan, order, peerCount)
      ensures OnePeerEach(plan) && Outstanding(plan) == old(pending)
      ensures forall p :: p in plan ==>
        p < peerCount && |old(pending)| / peerCount <= |plan[p]| <= |old(pending)| / peerCount + 1
      ensures Valid(all) <==> old(Outstanding(dealt)) == {}
    {
      hide Share, OnePeerEach, Deals, Outstanding, Sorted, Distinct;
      var sorted := SortedList(pending);
      order := sorted;
      plan := map[];
      if peerCount > 0 {
        plan := Deal(sorted, peerCount);
        DealsAll(plan, sorted, peerCount);
        DistinctSize(sorted);
      } else {
        NothingDealt();
      }
      pending := {};
      dealt := plan;
    }

    /** A failed peer gives back exactly its unfinished blocks. */
    method PeerFailed(peer: nat, ghost all: set<Hash>)
      requires Valid(all)
      modifies this
      ensures Valid(all) && done == old(done)
      ensures pending == old(pending) + if peer in old(dealt) then Elements(old(dealt)[peer]) else {}
      ensures dealt == old(dealt) - {peer}
    {
      if peer in dealt {
        GiveBack(dealt, peer);
        pending := pending + set h | h in dealt[peer];
        dealt := dealt - {peer};
      } else {
        assert dealt - {peer} == dealt;
      }
    }

    /** A finished block leaves the plan, whoever had it. */
    method ChunkDone(hash: Hash, ghost all: set<Hash>)
      requires Valid(all)
      modifies this
      ensures Valid(all) && pending == old(pending)
      ensures dealt == WithoutAll(old(dealt), hash) && Outstanding(dealt) == old(Outstanding(dealt)) - {hash}
      ensures done == old(done) + (old(Outstanding(dealt)) * {hash})
    {
      hide OnePeerEach;
      ghost var before := Outstanding(dealt);
      var plan := dealt;
      RemoveEverywhere(dealt, hash);
      dealt := WithoutAll(plan, hash);
      done := done + (before * {hash});
    }
  }

  function Without(hashes: seq<Hash>, h: Hash): seq<Hash> {
    if hashes == [] then []
    else (if hashes[0] == h then [] else [hashes[0]]) + Without(hashes[1..], h)
  }

  lemma {:induction false} WithoutMembers(hashes: seq<Hash>, h: Hash)
    ensures forall x :: x in Without(hashes, h) <==> x in hashes && x != h
  {
    if hashes != [] {
      WithoutMembers(hashes[1..], h);
      assert hashes == [hashes[0]] + hashes[1..];
    }
  }

  lemma {:induction false} WithoutDistinct(hashes: seq<Hash>, h: Hash)
    requires Distinct(hashes)
    ensures Distinct(Without(hashes, h))
  {
    if hashes != [] {
      WithoutDistinct(hashes[1..], h);
      WithoutMembers(hashes[1..], h);
      TailElements(hashes);
    }
  }

  function WithoutAll(plan: Plan, h: Hash): Plan {
    map p | p in plan :: Without(plan[p], h)
  }

  lemma RemoveEverywhere(plan: Plan, h: Hash)
    requires OnePeerEach(plan)
    ensures OnePeerEach(WithoutAll(plan, h)) && Outstanding(WithoutAll(plan, h)) == Outstanding(plan) - {h}
  {
    var next := WithoutAll(plan, h);
    forall p | p in plan
      ensures (forall x :: x in next[p] <==> x in plan[p] && x != h) && Distinct(next[p])
    {
      WithoutMembers(plan[p], h);
      WithoutDistinct(plan[p], h);
    }
    hide Without;
    forall x: Hash
      ensures x in Outstanding(next) <==> x in Outstanding(plan) && x != h
    {
      if x in Outstanding(plan) && x != h {
        var p :| p in plan && x in plan[p];
        assert p in next && x in next[p];
      }
      if x in Outstanding(next) {
        var p :| p in next && x in next[p];
        assert p in plan && x in plan[p];
      }
    }
  }

  lemma GiveBack(plan: Plan, peer: nat)
    requires OnePeerEach(plan) && peer in plan
    ensures OnePeerEach(plan - {peer})
    ensures Outstanding(plan) == Outstanding(plan - {peer}) + Elements(plan[peer])
    ensures Outstanding(plan - {peer}) !! Elements(plan[peer])
  {
    var rest := plan - {peer};
    forall p | p in rest ensures rest[p] == plan[p] && p in plan && p != peer {
    }
    forall h: Hash
      ensures h in Outstanding(plan) <==> h in Outstanding(rest) || h in plan[peer]
      ensures !(h in Outstanding(rest) && h in plan[peer])
    {
      if h in Outstanding(plan) && h !in plan[peer] {
        var p :| p in plan && h in plan[p];
        assert p in rest && h in rest[p];
      }
      if h in Outstanding(rest) {
        var p :| p in rest && h in rest[p];
        assert p in plan && h in plan[p];
      }
    }
  }

  lemma {:induction false} DistinctSize<T>(s: seq<T>)
    requires Distinct(s)
    ensures |Elements(s)| == |s|
  {
    if s != [] {
      TailElements(s);
      DistinctSize(s[1..]);
      assert s[0] in Elements(s);
    }
  }
}
