/** The three passes of a batch append over plain values: look up, place, fill in repeats. */
module PackBatchRun {
  import opened Common
  import opened PackStore
  import opened PackBatch

  /** `places` lists the positions of the new blocks among the first `i`, in order. */
  ghost predicate Places(index: Index, chunks: seq<Block>, i: nat, places: seq<nat>)
    requires i <= |chunks|
  {
    (forall k :: 0 <= k < |places| ==> places[k] < i && IsNew(index, chunks, places[k])) &&
    (forall k, l :: 0 <= k < l < |places| ==> places[k] < places[l]) &&
    (forall j :: 0 <= j < i && IsNew(index, chunks, j) ==> j in places)
  }

  /** `repeats` pairs every repeated new block among the first `i` with the first block of its hash. */
  ghost predicate Repeats(index: Index, chunks: seq<Block>, i: nat, repeats: seq<(nat, nat)>)
    requires i <= |chunks|
  {
    (forall d :: d in repeats ==> d.0 < i && Repeated(index, chunks, d.0) && d.1 == First(chunks, d.0)) &&
    (forall j :: 0 <= j < i && Repeated(index, chunks, j) ==> (j, First(chunks, j)) in repeats)
  }

  ghost predicate Repeated(index: Index, chunks: seq<Block>, j: nat)
    requires j < |chunks|
  {
    chunks[j].hash !in index && !IsNew(index, chunks, j)
  }

  ghost predicate Seen(index: Index, chunks: seq<Block>, i: nat, seen: map<Hash, nat>)
    requires i <= |chunks|
  {
    (forall h :: h in seen ==> seen[h] < i && chunks[seen[h]].hash == h && IsNew(index, chunks, seen[h])) &&
    (forall j :: 0 <= j < i && IsNew(index, chunks, j) ==> chunks[j].hash in seen)
  }

  lemma SeenIsFirst(index: Index, chunks: seq<Block>, i: nat, seen: map<Hash, nat>)
    requires i < |chunks| && Seen(index, chunks, i, seen)
    ensures chunks[i].hash in seen ==> Repeated(index, chunks, i) && seen[chunks[i].hash] == First(chunks, i)
    ensures chunks[i].hash !in seen && chunks[i].hash !in index ==> IsNew(index, chunks, i)
  {
    var h := chunks[i].hash;
    if h in seen {
      assert IsNew(index, chunks, seen[h]);
      assert !IsNew(index, chunks, i);
    } else if h !in index {
      var f := First(chunks, i);
      assert IsNew(index, chunks, f);
    }
  }

  lemma SeenIndexed(index: Index, chunks: seq<Block>, i: nat, places: seq<nat>, repeats: seq<(nat, nat)>,
      seen: map<Hash, nat>)
    requires i < |chunks| && chunks[i].hash in index
    requires Places(index, chunks, i, places) && Repeats(index, chunks, i, repeats) && Seen(index, chunks, i, seen)
    ensures Places(index, chunks, i + 1, places) && Repeats(index, chunks, i + 1, repeats)
    ensures Seen(index, chunks, i + 1, seen)
  {
    NewIsFirst(index, chunks, i);
    hide IsNew;
    hide First;
  }

  lemma SeenRepeat(index: Index, chunks: seq<Block>, i: nat, places: seq<nat>, repeats: seq<(nat, nat)>,
      seen: map<Hash, nat>)
    requires i < |chunks| && Repeated(index, chunks, i)
    requires Places(index, chunks, i, places) && Repeats(index, chunks, i, repeats) && Seen(index, chunks, i, seen)
    ensures Places(index, chunks, i + 1, places) && Repeats(index, chunks, i + 1, repeats + [(i, First(chunks, i))])
    ensures Seen(index, chunks, i + 1, seen)
  {
    hide IsNew;
    hide First;
    var longer := repeats + [(i, First(chunks, i))];
    forall j | 0 <= j < i + 1 && Repeated(index, chunks, j)
      ensures (j, First(chunks, j)) in longer
    {
      if j == i {
        assert longer[|repeats|] == (j, First(chunks, j));
      } else {
        assert (j, First(chunks, j)) in repeats;
      }
    }
  }

  lemma SeenNew(index: Index, chunks: seq<Block>, i: nat, places: seq<nat>, repeats: seq<(nat, nat)>,
      seen: map<Hash, nat>)
    requires i < |chunks| && IsNew(index, chunks, i)
    requires Places(index, chunks, i, places) && Repeats(index, chunks, i, repeats) && Seen(index, chunks, i, seen)
    requires chunks[i].hash !in seen
    ensures Places(index, chunks, i + 1, places + [i]) && Repeats(index, chunks, i + 1, repeats)
    ensures Seen(index, chunks, i + 1, seen[chunks[i].hash := i])
  {
    hide IsNew;
    hide First;
    var longer := places + [i];
    forall j | 0 <= j < i + 1 && IsNew(index, chunks, j)
      ensures j in longer
    {
      if j == i {
        assert longer[|places|] == j;
      } else {
        assert j in places;
      }
    }
  }

  method LookUp(index: Index, chunks: seq<Block>)
    returns (out: seq<(nat, nat)>, places: seq<nat>, repeats: seq<(nat, nat)>)
    ensures |out| == |chunks|
    ensures forall j :: 0 <= j < |chunks| && chunks[j].hash in index ==> out[j] == Unpack(index[chunks[j].hash])
    ensures Places(index, chunks, |chunks|, places)
    ensures Repeats(index, chunks, |chunks|, repeats)
  {
    hide IsNew;
    hide Unpack;
    hide First;
    out, places, repeats := [], [], [];
    var seen: map<Hash, nat> := map[];
    assert Places(index, chunks, 0, places) && Repeats(index, chunks, 0, repeats) && Seen(index, chunks, 0, seen);
    hide Places;
    hide Repeats;
    hide Seen;
    for i := 0 to |chunks|
      invariant |out| == i
      invariant forall j :: 0 <= j < i && chunks[j].hash in index ==> out[j] == Unpack(index[chunks[j].hash])
      invariant Places(index, chunks, i, places)
      invariant Repeats(index, chunks, i, repeats)
      invariant Seen(index, chunks, i, seen)
    {
      var hash := chunks[i].hash;
      SeenIsFirst(index, chunks, i, seen);
      if hash in seen {
        SeenRepeat(index, chunks, i, places, repeats, seen);
        repeats := repeats + [(i, seen[hash])];
        out := out + [(0, 0)];
      } else if hash in index {
        SeenIndexed(index, chunks, i, places, repeats, seen);
        out := out + [Unpack(index[hash])];
      } else {
        SeenNew(index, chunks, i, places, repeats, seen);
        seen := seen[hash := i];
        out := out + [(0, 0)];
        places := places + [i];
      }
    }
  }

  /** Where the `k`-th placed block sits in the batch; past the last one, the end of the batch. */
  ghost function PlaceAt(chunks: seq<Block>, places: seq<nat>, k: nat): nat
    requires k <= |places|
  {
    if k < |places| then places[k] else |chunks|
  }

  /** Nothing changes between two consecutive placed blocks. */
  lemma {:induction false} NothingPlaced(p: Pack, chunks: seq<Block>, a: nat, b: nat)
    requires a <= b <= |chunks|
    requires forall j :: a <= j < b ==> !IsNew(p.index, chunks, j)
    ensures BatchPack(p, chunks, a) == BatchPack(p, chunks, b)
  {
    if a < b {
      NothingPlaced(p, chunks, a, b - 1);
    }
  }

  lemma Gap(index: Index, chunks: seq<Block>, places: seq<nat>, k: nat)
    requires Places(index, chunks, |chunks|, places) && k < |places|
    ensures places[k] < PlaceAt(chunks, places, k + 1) <= |chunks|
    ensures forall j :: places[k] < j < PlaceAt(chunks, places, k + 1) ==> !IsNew(index, chunks, j)
  {
    hide IsNew;
    var a, b := places[k], PlaceAt(chunks, places, k + 1);
    forall l | 0 <= l < |places|
      ensures places[l] <= a || b <= places[l]
    {
      assert l < k || l == k || l == k + 1 || k + 1 < l;
    }
  }

  /** Going from one placed block to the next performs exactly one placement. */
  lemma NextPlace(p: Pack, chunks: seq<Block>, places: seq<nat>, k: nat)
    requires Places(p.index, chunks, |chunks|, places) && k < |places|
    ensures PlaceAt(chunks, places, k) < PlaceAt(chunks, places, k + 1) <= |chunks|
    ensures BatchPack(p, chunks, PlaceAt(chunks, places, k + 1))
         == Place(BatchPack(p, chunks, places[k]), chunks[places[k]])
  {
    hide IsNew;
    hide Place;
    Gap(p.index, chunks, places, k);
    NothingPlaced(p, chunks, places[k] + 1, PlaceAt(chunks, places, k + 1));
  }

  lemma FirstPlace(p: Pack, chunks: seq<Block>, places: seq<nat>)
    requires Places(p.index, chunks, |chunks|, places)
    ensures PlaceAt(chunks, places, 0) <= |chunks|
    ensures BatchPack(p, chunks, PlaceAt(chunks, places, 0)) == p
  {
    hide IsNew;
    assert forall l :: 0 <= l < |places| ==> PlaceAt(chunks, places, 0) <= places[l];
    NothingPlaced(p, chunks, 0, PlaceAt(chunks, places, 0));
  }

  /** Repeats take over the location of the first block of their hash. */
  method FillRepeats(ghost p: Pack, chunks: seq<Block>, out: seq<(nat, nat)>, repeats: seq<(nat, nat)>)
    returns (filled: seq<(nat, nat)>)
    requires |out| == |chunks| && Repeats(p.index, chunks, |chunks|, repeats)
    requires forall j :: 0 <= j < |chunks| && !Repeated(p.index, chunks, j) ==> out[j] == BatchOut(p, chunks, j)
    ensures |filled| == |chunks|
    ensures forall j :: 0 <= j < |chunks| ==> filled[j] == BatchOut(p, chunks, j)
  {
    hide First;
    hide IsNew;
    hide Unpack;
    hide BatchPack;
    filled := out;
    for k := 0 to |repeats|
      invariant |filled| == |chunks|
      invariant forall j :: 0 <= j < |chunks| && !Repeated(p.index, chunks, j) ==> filled[j] == BatchOut(p, chunks, j)
      invariant forall l :: 0 <= l < k ==> filled[repeats[l].0] == BatchOut(p, chunks, repeats[l].0)
    {
      var (i, first) := repeats[k];
      assert (i, first) in repeats;
      NewIsFirst(p.index, chunks, i);
      NewIsFirst(p.index, chunks, first);
      assert BatchOut(p, chunks, i) == BatchOut(p, chunks, first);
      filled := filled[i := filled[first]];
    }
    forall j | 0 <= j < |chunks| && Repeated(p.index, chunks, j)
      ensures filled[j] == BatchOut(p, chunks, j)
    {
      assert (j, First(chunks, j)) in repeats;
      var l :| 0 <= l < |repeats| && repeats[l] == (j, First(chunks, j));
    }
  }

  /** The first `k` new blocks have their location, indexed blocks keep theirs. */
  ghost predicate Placed(p: Pack, chunks: seq<Block>, places: seq<nat>, k: nat, lookedUp: seq<(nat, nat)>,
      out: seq<(nat, nat)>)
    requires k <= |places| && |lookedUp| == |chunks| && |out| == |chunks|
    requires Places(p.index, chunks, |chunks|, places)
  {
    (forall l :: 0 <= l < k ==> out[places[l]] == NewOut(p, chunks, places[l])) &&
    (forall j :: 0 <= j < |chunks| && chunks[j].hash in p.index ==> out[j] == lookedUp[j])
  }

  lemma PlacedStep(p: Pack, chunks: seq<Block>, places: seq<nat>, k: nat, lookedUp: seq<(nat, nat)>,
      out: seq<(nat, nat)>)
    requires k < |places| && |lookedUp| == |chunks| && |out| == |chunks|
    requires Places(p.index, chunks, |chunks|, places) && Placed(p, chunks, places, k, lookedUp, out)
    ensures Placed(p, chunks, places, k + 1, lookedUp, out[places[k] := NewOut(p, chunks, places[k])])
  {
    hide NewOut;
    assert chunks[places[k]].hash !in p.index;
    hide IsNew;
  }

  lemma PlacedOut(p: Pack, chunks: seq<Block>, places: seq<nat>, lookedUp: seq<(nat, nat)>, out: seq<(nat, nat)>)
    requires |lookedUp| == |chunks| && |out| == |chunks|
    requires Places(p.index, chunks, |chunks|, places) && Placed(p, chunks, places, |places|, lookedUp, out)
    requires forall j :: 0 <= j < |chunks| && chunks[j].hash in p.index ==> lookedUp[j] == BatchOut(p, chunks, j)
    ensures forall j :: 0 <= j < |chunks| && !Repeated(p.index, chunks, j) ==> out[j] == BatchOut(p, chunks, j)
  {
    hide IsNew;
    hide NewOut;
    hide First;
    forall j | 0 <= j < |chunks| && !Repeated(p.index, chunks, j)
      ensures out[j] == BatchOut(p, chunks, j)
    {
      NewIsFirst(p.index, chunks, j);
      if chunks[j].hash !in p.index {
        assert j in places;
      }
    }
  }

  /** The index commit: every new block enters the table at its reported location. */
  method IndexPlaced(index: Index, ghost p: Pack, chunks: seq<Block>, places: seq<nat>, out: seq<(nat, nat)>)
    returns (table: Index)
    requires p.index == index && |out| == |chunks| && Places(p.index, chunks, |chunks|, places)
    requires forall j :: 0 <= j < |chunks| ==> out[j] == BatchOut(p, chunks, j)
    ensures table == BatchPack(p, chunks, |chunks|).index
  {
    hide IsNew;
    hide WriteAt;
    hide PackLoc;
    hide First;
    hide BatchPack;
    FirstPlace(p, chunks, places);
    table := index;
    for k := 0 to |places|
      invariant PlaceAt(chunks, places, k) <= |chunks|
      invariant table == BatchPack(p, chunks, PlaceAt(chunks, places, k)).index
    {
      var j := places[k];
      NewIsFirst(p.index, chunks, j);
      NextPlace(p, chunks, places, k);
      var (offset, len) := out[j];
      table := table[chunks[j].hash := PackLoc(offset, len)];
    }
  }
}
