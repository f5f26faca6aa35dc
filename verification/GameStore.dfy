/** The block store object: its methods run the file and index operations step by step. */
module GameStore {
  import opened Common
  import opened PackStore
  import opened PackBatch
  import opened PackBatchRun
  import opened PackCrash
  import opened Compaction

  /** One short write extends what is already written. */
  lemma WriteStep(file: Bytes, data: Bytes, offset: nat, k: nat, n: nat)
    requires offset <= |file| && k + n <= |data|
    ensures WriteAt(WriteAt(file, data[..k], offset), data[k..k + n], offset + k)
         == WriteAt(file, data[..k + n], offset)
    ensures offset + k + n <= |WriteAt(file, data[..k + n], offset)|
  {
    assert data[..k + n] == data[..k] + data[k..k + n];
  }

  lemma WriteNothing(file: Bytes, data: Bytes, offset: nat)
    ensures WriteAt(file, data[..0], offset) == file
  {
  }

  const COPY_CHUNK := 0x10_0000

  /** Walk the live set in any order, keeping what is indexed. */
  method CollectLive(index: Index, live: set<Hash>) returns (found: seq<Hash>, liveBytes: nat)
    ensures Distinct(found) && forall h :: h in found <==> h in live && h in index
    ensures liveBytes == SumLens(index, found)
  {
    hide Unpack;
    found, liveBytes := [], 0;
    var todo := live;
    while todo != {}
      invariant todo <= live
      invariant Distinct(found) && forall h :: h in found <==> h in live && h !in todo && h in index
      invariant liveBytes == SumLens(index, found)
      decreases todo
    {
      var hash: Hash :| hash in todo;
      todo := todo - {hash};
      if hash in index {
        SumLensSnoc(index, found + [hash], |found|);
        assert (found + [hash])[..|found|] == found && (found + [hash])[..|found| + 1] == found + [hash];
        liveBytes := liveBytes + Unpack(index[hash]).1;
        found := found + [hash];
      }
    }
  }

  /** The new index, built with a running offset. */
  method RelocateAll(index: Index, hashes: seq<Hash>) returns (table: Index, newOffset: nat)
    requires forall h :: h in hashes ==> h in index
    ensures table == Relocate(index, hashes, |hashes|) && newOffset == SumLens(index, hashes)
  {
    hide Unpack;
    hide PackLoc;
    table, newOffset := map[], 0;
    for i := 0 to |hashes|
      invariant table == Relocate(index, hashes, i) && newOffset == SumLens(index, hashes[..i])
    {
      SumLensSnoc(index, hashes, i);
      LenBound(index[hashes[i]]);
      table := table[hashes[i] := PackLoc(newOffset, Unpack(index[hashes[i]]).1)];
      newOffset := newOffset + Unpack(index[hashes[i]]).1;
    }
    assert hashes[..|hashes|] == hashes;
  }

  class GameStore {
    var bytes: Bytes
    var size: nat
    var index: Index
    ghost var durable: seq<Durable>  // every state of the disk, in order

    ghost predicate Valid()
      reads this
    {
      durable != [] && durable[|durable| - 1] == Durable(bytes, index) && size <= |bytes|
    }

    ghost function Model(): Pack
      reads this
    {
      Pack(bytes, size, index)
    }

    constructor Open(disk: Durable)
      ensures Valid() && Model() == Reopen(disk.bytes, disk.index) && durable == [disk]
    {
      bytes, index, size := disk.bytes, disk.index, |disk.bytes|;
      durable := [disk];
    }

    /** Positioned write of a whole buffer over short writes; with `faulty` any of them may fail. */
    method WriteExactAt(data: Bytes, offset: nat, faulty: bool, ghost p: Pack) returns (ok: bool)
      requires Valid() && p.size <= offset <= |bytes| && Unseen(Durable(bytes, index), p)
      requires size <= offset
      modifies this`bytes, this`durable
      ensures Valid() && (ok || faulty)
      ensures ok ==> bytes == WriteAt(old(bytes), data, offset)
      ensures |old(durable)| <= |durable| && durable[..|old(durable)|] == old(durable)
      ensures UnseenFrom(durable, |old(durable)| - 1, p)
    {
      hide Unseen;
      hide WriteAt;
      var done := 0;
      WriteNothing(bytes, data, offset);
      while done < |data|
        invariant done <= |data|
        invariant bytes == WriteAt(old(bytes), data[..done], offset) && offset + done <= |bytes|
        invariant |old(durable)| <= |durable| && durable[..|old(durable)|] == old(durable)
        invariant durable[|durable| - 1] == Durable(bytes, index)
        invariant UnseenFrom(durable, |old(durable)| - 1, p)
      {
        var n: nat :| n <= |data| - done;
        if n == 0 {
          if faulty { return false; }
          n := 1;
        }
        WriteStep(old(bytes), data, offset, done, n);
        WriteUnseen(Durable(bytes, index), p, data[done..done + n], offset + done);
        bytes := WriteAt(bytes, data[done..done + n], offset + done);
        done := done + n;
        durable := durable + [Durable(bytes, index)];
      }
      assert data[..|data|] == data;
      ok := true;
    }

    /** Append one block; an indexed hash answers with its old location. */
    method Append(hash: Hash, data: Bytes, faulty: bool) returns (r: Option<(nat, nat)>)
      requires Valid()
      modifies this
      ensures Valid() && (r.Some? || faulty)
      ensures r.Some? ==> Model() == AppendChunk(old(Model()), hash, data).0
                          && r.value == AppendChunk(old(Model()), hash, data).1
      ensures r.Some? && hash !in old(index) ==>
        r.value == (old(size), |data| % TWO32) && size == old(size) + |data| && bytes[old(size)..size] == data
      ensures hash in old(index) ==> r.Some? && Model() == old(Model())
      ensures r.None? ==> Unseen(Durable(bytes, index), old(Model())) && old(size) <= size
      ensures |old(durable)| <= |durable| && durable[..|old(durable)|] == old(durable)
      ensures AllOrNothing(durable, |old(durable)| - 1, old(Model()), AppendChunk(old(Model()), hash, data).0)
    {
      hide PackLoc;
      hide Unpack;
      if hash in index {
        return Some(Unpack(index[hash]));
      }
      hide WriteAt;
      ghost var p := Model();
      ghost var q := AppendChunk(p, hash, data).0;
      var offset := size;
      var len := Len32(data);
      var ok := WriteExactAt(data, offset, faulty, p);
      assert AllOrNothing(durable, |old(durable)| - 1, p, q);
      if !ok { return None; }
      WriteAtEnd(p.bytes, data, offset);
      size := size + |data|;
      var commitFails: bool := *;
      if faulty && commitFails { return None; }
      index := index[hash := PackLoc(offset, len)];
      durable := durable + [Durable(bytes, index)];
      r := Some((offset, len));
    }

    /** Write the new blocks one behind the other; the index is not touched. */
    method PlaceAll(chunks: seq<Block>, places: seq<nat>, lookedUp: seq<(nat, nat)>, faulty: bool)
      returns (ok: bool, out: seq<(nat, nat)>, offset: nat)
      requires Valid() && |lookedUp| == |chunks| && Places(index, chunks, |chunks|, places)
      requires forall j :: 0 <= j < |chunks| && chunks[j].hash in index ==> lookedUp[j] == BatchOut(Model(), chunks, j)
      modifies this`bytes, this`durable
      ensures Valid() && (ok || faulty) && |out| == |chunks|
      ensures ok ==> bytes == BatchPack(old(Model()), chunks, |chunks|).bytes
                     && offset == BatchPack(old(Model()), chunks, |chunks|).size && size <= offset <= |bytes|
      ensures ok ==> forall j :: 0 <= j < |chunks| && !Repeated(index, chunks, j)
                       ==> out[j] == BatchOut(old(Model()), chunks, j)
      ensures ok ==> forall k :: 0 <= k < |places| ==> out[places[k]] == NewOut(old(Model()), chunks, places[k])
      ensures |old(durable)| <= |durable| && durable[..|old(durable)|] == old(durable)
      ensures UnseenFrom(durable, |old(durable)| - 1, old(Model()))
    {
      hide IsNew;
      hide WriteAt;
      hide PackLoc;
      hide Unpack;
      hide First;
      hide BatchPack;
      ghost var p := Model();
      assert Unseen(Durable(bytes, index), p);
      hide Unseen;
      FirstPlace(p, chunks, places);
      out, offset := lookedUp, size;
      for k := 0 to |places|
        invariant PlaceAt(chunks, places, k) <= |chunks|
        invariant bytes == BatchPack(p, chunks, PlaceAt(chunks, places, k)).bytes
        invariant offset == BatchPack(p, chunks, PlaceAt(chunks, places, k)).size
        invariant size <= offset <= |bytes|
        invariant |out| == |chunks| && Placed(p, chunks, places, k, lookedUp, out)
        invariant |old(durable)| <= |durable| && durable[..|old(durable)|] == old(durable)
        invariant durable[|durable| - 1] == Durable(bytes, index)
        invariant UnseenFrom(durable, |old(durable)| - 1, p)
      {
        var data := chunks[places[k]].data;
        ghost var before, length := bytes, |durable|;
        ok := WriteExactAt(data, offset, faulty, p);
        assert UnseenFrom(durable, |old(durable)| - 1, p) by {
          assert forall i :: |old(durable)| - 1 <= i < length ==> durable[i] == durable[..length][i];
        }
        if !ok { return; }
        WriteAtEnd(before, data, offset);
        NextPlace(p, chunks, places, k);
        PlacedStep(p, chunks, places, k, lookedUp, out);
        out := out[places[k] := (offset, Len32(data))];
        offset := offset + Len32(data);
      }
      ok := true;
      PlacedOut(p, chunks, places, lookedUp, out);
    }

    /**
     * Append a whole batch: one pass that looks every block up, one run of writes at increasing offsets, one
     * index commit.
     */
    method AppendBatch(chunks: seq<Block>, faulty: bool) returns (r: Option<seq<(nat, nat)>>)
      requires Valid()
      modifies this
      ensures Valid() && (r.Some? || faulty)
      ensures r.Some? ==> Model() == BatchPack(old(Model()), chunks, |chunks|)
      ensures r.Some? ==> |r.value| == |chunks|
                          && forall i :: 0 <= i < |chunks| ==> r.value[i] == BatchOut(old(Model()), chunks, i)
      ensures r.None? ==> Unseen(Durable(bytes, index), old(Model())) && old(size) <= size
      ensures |old(durable)| <= |durable| && durable[..|old(durable)|] == old(durable)
      ensures AllOrNothing(durable, |old(durable)| - 1, old(Model()), BatchPack(old(Model()), chunks, |chunks|))
    {
      hide IsNew;
      hide WriteAt;
      hide PackLoc;
      hide Unpack;
      hide First;
      hide BatchPack;
      ghost var p := Model();
      var lookedUp, places, repeats := LookUp(index, chunks);
      var ok, out, offset := PlaceAll(chunks, places, lookedUp, faulty);
      if !ok { return None; }
      out := FillRepeats(p, chunks, out, repeats);
      size := offset;
      if places != [] {
        var commitFails: bool := *;
        if faulty && commitFails { return None; }
        index := IndexPlaced(index, p, chunks, places, out);
        durable := durable + [Durable(bytes, index)];
      } else {
        FirstPlace(p, chunks, places);
      }
      r := Some(out);
    }

    /**
     * Deferred compaction. The file is replaced before the index is committed: the disk passes through the stopped
     * store, and a failing commit leaves it there. The file is left alone if and only if it is empty, the dead bytes
     * are too few or the space is too small for the live ones. A live block that lies past the end of the file, a
     * failing copy and a failing rename are errors that change nothing.
     */
    method Compact(live: set<Hash>, threshold: real, available: nat, faulty: bool)
      returns (r: Option<bool>, ghost hashes: seq<Hash>)
      requires Valid()
      modifies this
      ensures Valid() && LiveList(old(index), live, hashes)
      ensures var liveBytes := SumLens(old(index), hashes);
              r == Some(false) <==> old(size) == 0 || liveBytes > available ||
                                    (old(size) - liveBytes) as real < threshold * old(size) as real
      ensures r.None? ==> faulty || !RangesFit(old(bytes), Ranges(old(index), hashes))
      ensures r == Some(true) ==>
        RangesFit(old(bytes), Ranges(old(index), hashes)) && Model() == CompactPack(old(Model()), hashes)
      ensures r == Some(true) ==> durable == old(durable) + [Durable(bytes, old(index)), Durable(bytes, index)]
                                  && Reopen(bytes, old(index)) == StoppedPack(old(Model()), hashes)
      ensures r == Some(false) ==> Model() == old(Model()) && durable == old(durable)
      ensures r.None? ==> (Model() == old(Model()) && durable == old(durable)) ||
                          (RangesFit(old(bytes), Ranges(old(index), hashes)) &&
                            Model() == StoppedPack(old(Model()), hashes)
                           && durable == old(durable) + [Durable(bytes, index)])
    {
      hide Unpack;
      hide CopyOf;
      hide Relocate;
      hide SumLens;
      hide RangesFit;
      hide Sorted;
      hide Distinct;
      hide Ranges;
      hide StoppedPack;
      ghost var p := Model();
      var found, liveBytes := CollectLive(index, live);
      var sorted := SortHashes(found);
      hashes := sorted;
      SumOrderIndependent(index, found, sorted);
      WorthInDeadBytes(size, liveBytes, threshold, available);
      if size == 0 { return Some(false), hashes; }
      if 1.0 - liveBytes as real / size as real < threshold { return Some(false), hashes; }
      if available < liveBytes { return Some(false), hashes; }
      var ok, copy, copied := CopyRanges(bytes, Ranges(index, sorted), COPY_CHUNK);
      if !ok { return None, hashes; }
      CopyLength(bytes, index, sorted);
      StoppedFields(p, sorted);
      assert copied == liveBytes;
      var table, newOffset := RelocateAll(index, sorted);
      var renameFails: bool, commitFails: bool := *, *;
      if faulty && renameFails { return None, hashes; }
      bytes := copy;
      durable := durable + [Durable(bytes, index)];
      size := newOffset;
      if faulty && commitFails { return None, hashes; }
      index := table;
      durable := durable + [Durable(bytes, index)];
      r := Some(true);
    }

    method Read(hash: Hash) returns (r: ReadResult)
      ensures r == ReadChunk(Model(), hash)
    {
      if hash !in index { return Missing; }
      var (offset, len) := Unpack(index[hash]);
      var data := ReadExactAt(bytes, offset, len);
      r := if data.Some? then Data(data.value) else UnexpectedEof;
    }

    method Contains(hash: Hash) returns (found: bool)
      ensures found <==> hash in Model().index
    {
      found := hash in index;
    }
  }
}
