/** Deferred compaction: rewrite the block file with only the live blocks, in hash order. */
module Compaction {
  import opened Common
  import opened PackStore

  /** The indexed live hashes in the order compaction writes them; by `SortedUnique` there is one such list. */
  ghost predicate LiveList(index: Index, live: set<Hash>, hashes: seq<Hash>) {
    Sorted(hashes) && Distinct(hashes) && forall h :: h in hashes <==> h in live && h in index
  }

  function Ranges(index: Index, hashes: seq<Hash>): (ranges: seq<(nat, nat)>)
    requires forall h :: h in hashes ==> h in index
    ensures |ranges| == |hashes|
    ensures forall i :: 0 <= i < |hashes| ==> ranges[i] == Unpack(index[hashes[i]])
  {
    if hashes == [] then [] else [Unpack(index[hashes[0]])] + Ranges(index, hashes[1..])
  }

  function Relocate(index: Index, hashes: seq<Hash>, i: nat): Index
    requires i <= |hashes| && forall h :: h in hashes ==> h in index
  {
    if i == 0 then map[]
    else
      var h := hashes[i - 1];
      Relocate(index, hashes, i - 1)[h := PackLoc(SumLens(index, hashes[..i - 1]), Unpack(index[h]).1)]
  }

  predicate RangesFit(src: Bytes, ranges: seq<(nat, nat)>) {
    forall r :: r in ranges && r.1 > 0 ==> r.0 + r.1 <= |src|
  }

  /** The bytes of a list of ranges, one after the other. */
  function CopyOf(src: Bytes, ranges: seq<(nat, nat)>): Bytes
    requires RangesFit(src, ranges)
  {
    if ranges == [] then []
    else (if ranges[0].1 == 0 then [] else src[ranges[0].0..ranges[0].0 + ranges[0].1]) + CopyOf(src, ranges[1..])
  }

  lemma {:induction false} CopyOfSnoc(src: Bytes, ranges: seq<(nat, nat)>, r: (nat, nat))
    requires RangesFit(src, ranges + [r])
    ensures RangesFit(src, ranges) && RangesFit(src, [r])
    ensures CopyOf(src, ranges + [r]) == CopyOf(src, ranges) + CopyOf(src, [r])
  {
    assert forall x :: x in ranges ==> x in ranges + [r];
    assert r in ranges + [r];
    if ranges == [] {
      assert [] + [r] == [r];
    } else {
      assert (ranges + [r])[1..] == ranges[1..] + [r] && (ranges + [r])[0] == ranges[0];
      CopyOfSnoc(src, ranges[1..], r);
      CopyFirst(src, ranges + [r]);
      CopyFirst(src, ranges);
      var first := if ranges[0].1 == 0 then [] else src[ranges[0].0..ranges[0].0 + ranges[0].1];
      hide CopyOf;
      hide RangesFit;
      JoinAssociates(first, CopyOf(src, ranges[1..]), CopyOf(src, [r]));
    }
  }

  /** One range in windows; an error when it runs past the end of the source. */
  method CopyRange(src: Bytes, dst: Bytes, r: (nat, nat), window: nat) returns (ok: bool, out: Bytes, copied: nat)
    requires window > 0
    ensures ok <==> RangesFit(src, [r])
    ensures ok ==> out == dst + CopyOf(src, [r]) && copied == r.1
  {
    var remaining: nat, pos: nat, outOffset: nat := r.1, r.0, |dst|;
    out, copied := dst, 0;
    assert r in [r];
    while remaining > 0
      invariant copied == r.1 - remaining && remaining <= r.1 && pos == r.0 + copied && outOffset == |out|
      invariant copied > 0 ==> pos <= |src|
      invariant out == dst + (if copied == 0 then [] else src[r.0..pos])
    {
      var want := if remaining <= window then remaining else window;
      if pos + want > |src| { return false, out, copied; }
      var data := src[pos..pos + want];
      assert copied > 0 ==> src[r.0..pos] + data == src[r.0..pos + want];
      assert WriteAt(out, data, outOffset) == out + data;
      out := WriteAt(out, data, outOffset);
      remaining, pos, outOffset, copied := remaining - want, pos + want, outOffset + want, copied + want;
    }
    ok := true;
    assert RangesFit(src, [r]);
    OneCopied(src, r);
  }

  /** The copied file is the concatenation of the ranges, for every range list and every window. */
  method CopyRanges(src: Bytes, ranges: seq<(nat, nat)>, window: nat) returns (ok: bool, dst: Bytes, total: nat)
    requires window > 0
    ensures ok <==> RangesFit(src, ranges)
    ensures ok ==> dst == CopyOf(src, ranges) && total == |dst|
  {
    hide CopyOf;
    dst, total := [], 0;
    assert CopyOf(src, ranges[..0]) == [] by { NothingCopied(src); }
    for i := 0 to |ranges|
      invariant RangesFit(src, ranges[..i])
      invariant dst == CopyOf(src, ranges[..i]) && total == |dst|
    {
      assert ranges[..i + 1] == ranges[..i] + [ranges[i]];
      var copied;
      ok, dst, copied := CopyRange(src, dst, ranges[i], window);
      if !ok {
        assert ranges[i] in ranges;
        return;
      }
      CopyOfSnoc(src, ranges[..i], ranges[i]);
      assert |CopyOf(src, [ranges[i]])| == ranges[i].1 by { OneCopied(src, ranges[i]); }
      total := total + copied;
    }
    assert ranges[..|ranges|] == ranges;
    ok := true;
  }

  lemma NothingCopied(src: Bytes)
    ensures CopyOf(src, []) == []
  {
  }

  lemma OneCopied(src: Bytes, r: (nat, nat))
    requires RangesFit(src, [r])
    ensures CopyOf(src, [r]) == if r.1 == 0 then [] else src[r.0..r.0 + r.1]
  {
    assert r in [r];
    assert [r][1..] == [];
  }

  /** The store a completed compaction leaves behind. */
  function CompactPack(p: Pack, hashes: seq<Hash>): Pack
    requires forall h :: h in hashes ==> h in p.index
    requires RangesFit(p.bytes, Ranges(p.index, hashes))
  {
    Pack(CopyOf(p.bytes, Ranges(p.index, hashes)), SumLens(p.index, hashes), Relocate(p.index, hashes, |hashes|))
  }

  // ---------- when a store is rewritten ----------

  /** The rewrite happens if the share of garbage reaches the threshold and there is space for the live bytes. */
  predicate WorthCompacting(size: nat, liveBytes: nat, threshold: real, available: nat) {
    size > 0 && 1.0 - liveBytes as real / size as real >= threshold && available >= liveBytes
  }

  /** In dead bytes, without a quotient. */
  lemma WorthInDeadBytes(size: nat, liveBytes: nat, threshold: real, available: nat)
    ensures WorthCompacting(size, liveBytes, threshold, available) <==>
            size > 0 && (size - liveBytes) as real >= threshold * size as real && liveBytes <= available
  {
    if size > 0 {
      var s, l := size as real, liveBytes as real;
      QuotientTimes(l, s);
      DeadShare(s, l, l / s, threshold);
    }
  }

  lemma DeadShare(s: real, l: real, q: real, threshold: real)
    requires s > 0.0 && q * s == l
    ensures 1.0 - q >= threshold <==> s - l >= threshold * s
  {
    ShareOfRest(q, s);
    ScaledOrder(1.0 - q, threshold, s);
  }

  lemma QuotientTimes(l: real, s: real)
    requires s > 0.0
    ensures l / s * s == l
  {
  }

  lemma ShareOfRest(share: real, s: real)
    ensures (1.0 - share) * s == s - share * s
  {
  }

  lemma ScaledOrder(a: real, b: real, s: real)
    requires s > 0.0
    ensures a >= b <==> a * s >= b * s
  {
    if a >= b {
      assert (a - b) * s >= 0.0;
    } else {
      assert (b - a) * s > 0.0;
    }
  }

  /** A store whose bytes are all live is never rewritten for a positive threshold. */
  lemma AllLiveNotRewritten(p: Pack, hashes: seq<Hash>, threshold: real, available: nat)
    requires forall h :: h in hashes ==> h in p.index
    requires SumLens(p.index, hashes) == p.size && threshold > 0.0
    ensures !WorthCompacting(p.size, SumLens(p.index, hashes), threshold, available)
  {
    hide WorthCompacting;
    hide SumLens;
    WorthInDeadBytes(p.size, SumLens(p.index, hashes), threshold, available);
    if p.size > 0 { ScaledOrder(threshold, 0.0, p.size as real); }
  }

  /** Once worth it, a compaction stays worth it with fewer live blocks. */
  lemma FewerLiveStillRewritten(p: Pack, live: set<Hash>, fewer: set<Hash>, hashes: seq<Hash>, left: seq<Hash>,
      threshold: real, available: nat)
    requires fewer <= live && LiveList(p.index, live, hashes) && LiveList(p.index, fewer, left)
    requires WorthCompacting(p.size, SumLens(p.index, hashes), threshold, available)
    ensures WorthCompacting(p.size, SumLens(p.index, left), threshold, available)
  {
    hide SumLens;
    hide WorthCompacting;
    hide Sorted;
    hide Distinct;
    SumOfFewerLive(p.index, live, fewer, hashes, left);
    WorthStays(p.size, SumLens(p.index, hashes), SumLens(p.index, left), threshold, available);
  }

  lemma SumOfFewerLive(index: Index, live: set<Hash>, fewer: set<Hash>, hashes: seq<Hash>, left: seq<Hash>)
    requires fewer <= live && LiveList(index, live, hashes) && LiveList(index, fewer, left)
    ensures SumLens(index, left) <= SumLens(index, hashes)
  {
    hide SumLens;
    hide Sorted;
    SumOfFewer(index, left, hashes);
  }

  lemma WorthStays(size: nat, liveBytes: nat, less: nat, threshold: real, available: nat)
    requires WorthCompacting(size, liveBytes, threshold, available) && less <= liveBytes
    ensures WorthCompacting(size, less, threshold, available)
  {
    WorthInDeadBytes(size, liveBytes, threshold, available);
    WorthInDeadBytes(size, less, threshold, available);
    hide WorthCompacting;
  }

  lemma {:induction false} SumOfFewer(index: Index, a: seq<Hash>, b: seq<Hash>)
    requires Distinct(a) && (forall h :: h in b ==> h in index) && forall h :: h in a ==> h in b
    ensures SumLens(index, a) <= SumLens(index, b)
    decreases |a|
  {
    hide Unpack;
    if a != [] {
      assert a[0] in a && a[0] in b;
      var i :| 0 <= i < |b| && b[i] == a[0];
      SumWithout(index, b, i);
      var rest := b[..i] + b[i + 1..];
      WithoutOne(b, i);
      forall h | h in a[1..]
        ensures h in rest
      {
        assert h in a && h in b;
        var k :| 0 <= k < |b| && b[k] == h;
        assert k != i;
        assert rest[if k < i then k else k - 1] == h;
      }
      SumOfFewer(index, a[1..], rest);
    }
  }

  /** A compacted store is not rewritten again for the same live blocks. */
  lemma CompactedNotRewritten(p: Pack, hashes: seq<Hash>, threshold: real, available: nat)
    requires Distinct(hashes) && (forall h :: h in hashes ==> h in p.index) && threshold > 0.0
    requires RangesFit(p.bytes, Ranges(p.index, hashes))
    ensures var q := CompactPack(p, hashes);
            (forall h :: h in hashes ==> h in q.index) &&
            !WorthCompacting(q.size, SumLens(q.index, hashes), threshold, available)
  {
    hide WorthCompacting;
    hide RangesFit;
    hide CopyOf;
    hide Relocate;
    hide Unpack;
    var q := CompactPack(p, hashes);
    forall i | 0 <= i < |hashes|
      ensures hashes[i] in q.index && Unpack(q.index[hashes[i]]).1 == Unpack(p.index[hashes[i]]).1
    {
      RelocateEntry(p.index, hashes, |hashes|, i);
      LenBound(p.index[hashes[i]]);
      UnpackPack(SumLens(p.index, hashes[..i]), Unpack(p.index[hashes[i]]).1);
    }
    SameLensSameSum(p.index, q.index, hashes);
    AllLiveNotRewritten(q, hashes, threshold, available);
  }

  lemma {:induction false} SameLensSameSum(a: Index, b: Index, hashes: seq<Hash>)
    requires forall h :: h in hashes ==> h in a && h in b && Unpack(a[h]).1 == Unpack(b[h]).1
    ensures SumLens(a, hashes) == SumLens(b, hashes)
  {
    hide Unpack;
    if hashes != [] {
      SameLensSameSum(a, b, hashes[1..]);
    }
  }

  // ---------- what compaction preserves ----------

  /** Every non-empty live block starts below 2^32 in the rewritten file. */
  ghost predicate Relocatable(index: Index, hashes: seq<Hash>)
    requires forall h :: h in hashes ==> h in index
  {
    forall i :: 0 <= i < |hashes| ==> SumLens(index, hashes[..i]) < TWO32 || Unpack(index[hashes[i]]).1 == 0
  }

  lemma {:induction false} SumLensSnoc(index: Index, hashes: seq<Hash>, i: nat)
    requires i < |hashes| && forall h :: h in hashes ==> h in index
    ensures SumLens(index, hashes[..i + 1]) == SumLens(index, hashes[..i]) + Unpack(index[hashes[i]]).1
  {
    hide Unpack;
    if i == 0 {
      assert hashes[..1][1..] == [];
    } else {
      SumLensSnoc(index, hashes[1..], i - 1);
      assert hashes[..i + 1][1..] == hashes[1..][..i];
      assert hashes[..i][1..] == hashes[1..][..i - 1];
    }
  }

  lemma {:induction false} SumLensMonotone(index: Index, hashes: seq<Hash>, i: nat, j: nat)
    requires i <= j <= |hashes| && forall h :: h in hashes ==> h in index
    ensures SumLens(index, hashes[..i]) <= SumLens(index, hashes[..j])
  {
    if i < j {
      SumLensMonotone(index, hashes, i, j - 1);
      SumLensSnoc(index, hashes, j - 1);
    }
  }

  /** A pack of at most 2^32 bytes can always be relocated. */
  lemma SmallPackRelocatable(p: Pack, hashes: seq<Hash>)
    requires Inv(p) && p.size <= TWO32 && Distinct(hashes) && forall h :: h in hashes ==> h in p.index
    ensures Relocatable(p.index, hashes)
  {
    hide Unpack;
    LiveBytesBounded(p, hashes);
    assert hashes[..|hashes|] == hashes;
    forall i | 0 <= i < |hashes|
      ensures SumLens(p.index, hashes[..i]) < TWO32 || Unpack(p.index[hashes[i]]).1 == 0
    {
      SumLensSnoc(p.index, hashes, i);
      SumLensMonotone(p.index, hashes, i + 1, |hashes|);
    }
  }

  lemma {:induction false} RelocateEntry(index: Index, hashes: seq<Hash>, i: nat, k: nat)
    requires k < i <= |hashes| && Distinct(hashes) && forall h :: h in hashes ==> h in index
    ensures hashes[k] in Relocate(index, hashes, i)
    ensures Relocate(index, hashes, i)[hashes[k]] == PackLoc(SumLens(index, hashes[..k]), Unpack(index[hashes[k]]).1)
  {
    hide Unpack;
    hide PackLoc;
    if k < i - 1 {
      RelocateEntry(index, hashes, i - 1, k);
    }
  }

  lemma {:induction false} RelocateKeys(index: Index, hashes: seq<Hash>, i: nat)
    requires i <= |hashes| && forall h :: h in hashes ==> h in index
    ensures forall h :: h in Relocate(index, hashes, i) <==> h in hashes[..i]
  {
    hide Unpack;
    hide PackLoc;
    if i > 0 {
      RelocateKeys(index, hashes, i - 1);
      assert hashes[..i] == hashes[..i - 1] + [hashes[i - 1]];
    }
  }

  lemma RangesInFile(p: Pack, hashes: seq<Hash>)
    requires Inv(p) && forall h :: h in hashes ==> h in p.index
    ensures RangesFit(p.bytes, Ranges(p.index, hashes))
  {
    hide Unpack;
    hide Disjoint;
    forall r | r in Ranges(p.index, hashes)
      ensures r.0 + r.1 <= |p.bytes|
    {
      var i :| 0 <= i < |hashes| && Ranges(p.index, hashes)[i] == r;
      assert hashes[i] in p.index;
    }
  }

  lemma RangeIsSlice(p: Pack, hash: Hash)
    requires Inv(p) && hash in p.index
    ensures var (offset, len) := Unpack(p.index[hash]);
            Slice(p, hash) == (if len == 0 then [] else p.bytes[offset..offset + len]) && |Slice(p, hash)| == len
  {
    hide Unpack;
    hide Disjoint;
  }

  lemma RangesTail(index: Index, hashes: seq<Hash>)
    requires hashes != [] && forall h :: h in hashes ==> h in index
    ensures Ranges(index, hashes)[0] == Unpack(index[hashes[0]])
    ensures Ranges(index, hashes)[1..] == Ranges(index, hashes[1..])
  {
    hide Unpack;
  }

  lemma CopyFirst(src: Bytes, ranges: seq<(nat, nat)>)
    requires ranges != [] && RangesFit(src, ranges) && RangesFit(src, ranges[1..])
    ensures CopyOf(src, ranges) == (if ranges[0].1 == 0 then [] else src[ranges[0].0..ranges[0].0 + ranges[0].1])
                                   + CopyOf(src, ranges[1..])
  {
  }

  lemma CopyHead(p: Pack, hashes: seq<Hash>)
    requires Inv(p) && hashes != [] && forall h :: h in hashes ==> h in p.index
    requires RangesFit(p.bytes, Ranges(p.index, hashes)) && RangesFit(p.bytes, Ranges(p.index, hashes[1..]))
    ensures |Slice(p, hashes[0])| == Unpack(p.index[hashes[0]]).1
    ensures CopyOf(p.bytes, Ranges(p.index, hashes))
         == Slice(p, hashes[0]) + CopyOf(p.bytes, Ranges(p.index, hashes[1..]))
  {
    hide *;
    RangeIsSlice(p, hashes[0]);
    RangesTail(p.index, hashes);
    CopyFirst(p.bytes, Ranges(p.index, hashes));
  }

  /** The copied file is as long as the live blocks together. */
  lemma {:induction false} CopyLength(bytes: Bytes, index: Index, hashes: seq<Hash>)
    requires (forall h :: h in hashes ==> h in index) && RangesFit(bytes, Ranges(index, hashes))
    ensures |CopyOf(bytes, Ranges(index, hashes))| == SumLens(index, hashes)
  {
    if hashes != [] {
      RangesTail(index, hashes);
      hide Unpack;
      assert Ranges(index, hashes)[0] in Ranges(index, hashes);
      assert forall r :: r in Ranges(index, hashes)[1..] ==> r in Ranges(index, hashes);
      CopyFirst(bytes, Ranges(index, hashes));
      CopyLength(bytes, index, hashes[1..]);
      hide CopyOf;
    }
  }

  /** The copied file holds block `k` right after the blocks before it. */
  lemma {:induction false} CopiedBlock(p: Pack, hashes: seq<Hash>, k: nat)
    requires Inv(p) && k < |hashes| && forall h :: h in hashes ==> h in p.index
    requires RangesFit(p.bytes, Ranges(p.index, hashes))
    ensures var copy := CopyOf(p.bytes, Ranges(p.index, hashes));
            var from := SumLens(p.index, hashes[..k]);
            var to := from + Unpack(p.index[hashes[k]]).1;
            to <= |copy| && copy[from..to] == Slice(p, hashes[k])
  {
    hide Unpack, Disjoint, CopyOf, Slice, SumLens, Ranges, RangesFit;
    var tail := hashes[1..];
    RangesInFile(p, tail);
    CopyHead(p, hashes);
    var first, rest := Slice(p, hashes[0]), CopyOf(p.bytes, Ranges(p.index, tail));
    if k == 0 {
      assert hashes[..k] == [];
      SumLensEmpty(p.index);
      assert (first + rest)[..|first|] == first;
    } else {
      CopiedBlock(p, tail, k - 1);
      SumLensShift(p.index, hashes, k);
      Shift(first, rest, SumLens(p.index, tail[..k - 1]),
        SumLens(p.index, tail[..k - 1]) + Unpack(p.index[hashes[k]]).1);
    }
  }

  lemma SumLensEmpty(index: Index)
    ensures SumLens(index, []) == 0
  {
  }

  lemma SumLensShift(index: Index, hashes: seq<Hash>, k: nat)
    requires 0 < k < |hashes| && forall h :: h in hashes ==> h in index
    ensures SumLens(index, hashes[..k]) == Unpack(index[hashes[0]]).1 + SumLens(index, hashes[1..][..k - 1])
  {
    hide Unpack;
    assert hashes[..k][1..] == hashes[1..][..k - 1];
  }

  lemma Shift(first: Bytes, rest: Bytes, from: nat, to: nat)
    requires from <= to <= |rest|
    ensures (first + rest)[|first| + from..|first| + to] == rest[from..to]
  {
  }

  /** Where a live block ends up: its own length, and its new offset when that matters. */
  lemma Moved(index: Index, hashes: seq<Hash>, k: nat)
    requires k < |hashes| && Distinct(hashes) && forall h :: h in hashes ==> h in index
    requires Relocatable(index, hashes)
    ensures hashes[k] in Relocate(index, hashes, |hashes|)
    ensures var (offset, len) := Unpack(Relocate(index, hashes, |hashes|)[hashes[k]]);
            var from := SumLens(index, hashes[..k]);
            len == Unpack(index[hashes[k]]).1 && offset <= from && (len > 0 ==> offset == from)
  {
    hide Unpack;
    hide PackLoc;
    hide Relocate;
    hide SumLens;
    RelocateEntry(index, hashes, |hashes|, k);
    LenBound(index[hashes[k]]);
    UnpackPack(SumLens(index, hashes[..k]), Unpack(index[hashes[k]]).1);
  }

  lemma LenBound(value: nat)
    ensures Unpack(value).1 < TWO32
  {
  }

  lemma MovedApart(index: Index, hashes: seq<Hash>)
    requires Distinct(hashes) && (forall h :: h in hashes ==> h in index) && Relocatable(index, hashes)
    ensures InBounds(Relocate(index, hashes, |hashes|), SumLens(index, hashes))
    ensures Disjoint(Relocate(index, hashes, |hashes|))
  {
    hide Unpack;
    hide PackLoc;
    hide Relocatable;
    hide Relocate;
    var index' := Relocate(index, hashes, |hashes|);
    RelocateKeys(index, hashes, |hashes|);
    assert hashes[..|hashes|] == hashes;
    forall h | h in index'
      ensures Unpack(index'[h]).0 + Unpack(index'[h]).1 <= SumLens(index, hashes)
    {
      var k :| 0 <= k < |hashes| && hashes[k] == h;
      Moved(index, hashes, k);
      SumLensSnoc(index, hashes, k);
      SumLensMonotone(index, hashes, k + 1, |hashes|);
    }
    forall g, h | g in index' && h in index' && g != h
      ensures Apart(Unpack(index'[g]), Unpack(index'[h]))
    {
      var k :| 0 <= k < |hashes| && hashes[k] == g;
      var l :| 0 <= l < |hashes| && hashes[l] == h;
      Moved(index, hashes, k);
      Moved(index, hashes, l);
      SumLensSnoc(index, hashes, k);
      SumLensSnoc(index, hashes, l);
      if k < l {
        SumLensMonotone(index, hashes, k + 1, l);
      } else {
        SumLensMonotone(index, hashes, l + 1, k);
      }
    }
  }

  lemma SliceAt(p: Pack, hash: Hash, offset: nat, len: nat)
    requires Inv(p) && hash in p.index && Unpack(p.index[hash]) == (offset, len)
    ensures offset + len <= |p.bytes| && Slice(p, hash) == p.bytes[offset..offset + len]
  {
    hide Unpack;
    hide Disjoint;
  }

  lemma MovedSlice(p: Pack, hashes: seq<Hash>, k: nat)
    requires Inv(p) && k < |hashes| && Distinct(hashes) && (forall h :: h in hashes ==> h in p.index)
    requires Relocatable(p.index, hashes) && RangesFit(p.bytes, Ranges(p.index, hashes))
    requires Inv(CompactPack(p, hashes))
    ensures hashes[k] in CompactPack(p, hashes).index
    ensures Slice(CompactPack(p, hashes), hashes[k]) == Slice(p, hashes[k])
  {
    hide *;
    var q := CompactPack(p, hashes);
    assert q.bytes == CopyOf(p.bytes, Ranges(p.index, hashes)) && q.index == Relocate(p.index, hashes, |hashes|) by {
      CompactFields(p, hashes);
    }
    Moved(p.index, hashes, k);
    CopiedBlock(p, hashes, k);
    var (offset, len) := Unpack(q.index[hashes[k]]);
    SliceAt(q, hashes[k], offset, len);
    RangeIsSlice(p, hashes[k]);
  }

  lemma CompactFields(p: Pack, hashes: seq<Hash>)
    requires forall h :: h in hashes ==> h in p.index
    requires RangesFit(p.bytes, Ranges(p.index, hashes))
    ensures CompactPack(p, hashes).bytes == CopyOf(p.bytes, Ranges(p.index, hashes))
    ensures CompactPack(p, hashes).index == Relocate(p.index, hashes, |hashes|)
  {
    hide CopyOf;
    hide Relocate;
    hide RangesFit;
  }

  /**
   * A completed compaction keeps every live block and forgets every other one; the file shrinks to exactly the
   * live bytes.
   */
  lemma CompactionPreserves(p: Pack, live: set<Hash>, hashes: seq<Hash>)
    requires Inv(p) && LiveList(p.index, live, hashes) && Relocatable(p.index, hashes)
    ensures RangesFit(p.bytes, Ranges(p.index, hashes))
    ensures var q := CompactPack(p, hashes);
            Inv(q) && q.size == |q.bytes| == SumLens(p.index, hashes) &&
            View(q) == map h | h in live && h in View(p) :: View(p)[h]
  {
    hide Unpack;
    hide Disjoint;
    hide SumLens;
    hide Ranges;
    hide RangesFit;
    hide Sorted;
    hide CopyOf;
    hide Relocate;
    hide Relocatable;
    hide Slice;
    RangesInFile(p, hashes);
    CopyLength(p.bytes, p.index, hashes);
    MovedApart(p.index, hashes);
    var q := CompactPack(p, hashes);
    assert Inv(q);
    RelocateKeys(p.index, hashes, |hashes|);
    assert hashes[..|hashes|] == hashes;
    forall h | h in q.index
      ensures Slice(q, h) == Slice(p, h)
    {
      var k :| 0 <= k < |hashes| && hashes[k] == h;
      MovedSlice(p, hashes, k);
    }
  }

  /** The one list a compaction can work on: it does not depend on how the hash set is walked. */
  lemma LiveListUnique(index: Index, live: set<Hash>, a: seq<Hash>, b: seq<Hash>)
    requires LiveList(index, live, a) && LiveList(index, live, b)
    ensures a == b
  {
    assert Elements(a) == Elements(b);
    SortedUnique(a, b);
  }

  // ---------- a compaction that stops between replacing the file and committing the index ----------

  /** What reopening finds: the new file under the old index. */
  function StoppedPack(p: Pack, hashes: seq<Hash>): Pack
    requires forall h :: h in hashes ==> h in p.index
    requires RangesFit(p.bytes, Ranges(p.index, hashes))
  {
    Reopen(CompactPack(p, hashes).bytes, p.index)
  }

  lemma StoppedFields(p: Pack, hashes: seq<Hash>)
    requires (forall h :: h in hashes ==> h in p.index) && RangesFit(p.bytes, Ranges(p.index, hashes))
    ensures StoppedPack(p, hashes).bytes == CopyOf(p.bytes, Ranges(p.index, hashes)) &&
      StoppedPack(p, hashes).index == p.index
    ensures StoppedPack(p, hashes).size == |StoppedPack(p, hashes).bytes| == SumLens(p.index, hashes)
  {
    hide Unpack;
    hide CopyOf;
    hide Relocate;
    hide RangesFit;
    CopyLength(p.bytes, p.index, hashes);
  }

  /** The stopped store is sound if and only if every indexed range, live or dead, ends within the live bytes. */
  lemma StoppedSoundIff(p: Pack, live: set<Hash>, hashes: seq<Hash>)
    requires Inv(p) && LiveList(p.index, live, hashes)
    ensures RangesFit(p.bytes, Ranges(p.index, hashes))
    ensures Inv(StoppedPack(p, hashes)) <==> InBounds(p.index, SumLens(p.index, hashes))
  {
    RangesInFile(p, hashes);
    StoppedFields(p, hashes);
    hide Unpack;
    hide Disjoint;
    hide StoppedPack;
    hide RangesFit;
    hide InBounds;
  }

  /**
   * What a stopped store answers for live block `k`: the copied bytes at the old place. They are the block's own
   * bytes if and only if the copy shows them there, and with the place past its end reading fails.
   */
  lemma StoppedReads(p: Pack, live: set<Hash>, hashes: seq<Hash>, k: nat)
    requires Inv(p) && LiveList(p.index, live, hashes) && k < |hashes|
    ensures RangesFit(p.bytes, Ranges(p.index, hashes))
    ensures var (offset, len) := Unpack(p.index[hashes[k]]);
            var copy := CopyOf(p.bytes, Ranges(p.index, hashes));
            var r := ReadChunk(StoppedPack(p, hashes), hashes[k]);
            (r == Data(View(p)[hashes[k]]) <==>
               len == 0 || (offset + len <= |copy| && copy[offset..offset + len] == View(p)[hashes[k]])) &&
            (r == UnexpectedEof <==> len > 0 && offset + len > SumLens(p.index, hashes))
  {
    RangesInFile(p, hashes);
    StoppedFields(p, hashes);
    RangeIsSlice(p, hashes[k]);
    CopyLength(p.bytes, p.index, hashes);
    hide Unpack;
    hide Disjoint;
    hide InBounds;
    hide StoppedPack;
    hide RangesFit;
    hide Ranges;
    hide CopyOf;
    hide SumLens;
    hide Slice;
  }

  /** Every non-empty live block already stands at its running offset: all live bytes come first, in hash order. */
  ghost predicate AlreadyInPlace(index: Index, hashes: seq<Hash>)
    requires forall h :: h in hashes ==> h in index
  {
    forall k :: 0 <= k < |hashes| && Unpack(index[hashes[k]]).1 > 0 ==>
      Unpack(index[hashes[k]]).0 == SumLens(index, hashes[..k])
  }

  /** Then nothing live is lost by a stop. */
  lemma InPlaceStopKeepsLive(p: Pack, live: set<Hash>, hashes: seq<Hash>, k: nat)
    requires Inv(p) && LiveList(p.index, live, hashes) && AlreadyInPlace(p.index, hashes) && k < |hashes|
    ensures RangesFit(p.bytes, Ranges(p.index, hashes))
    ensures ReadChunk(StoppedPack(p, hashes), hashes[k]) == Data(View(p)[hashes[k]])
  {
    hide *;
    LiveIndexed(p, live, hashes);
    StoppedReads(p, live, hashes, k);
    RangesInFile(p, hashes);
    CopiedBlock(p, hashes, k);
    ViewAt(p, hashes[k]);
    InPlaceAt(p.index, hashes, k);
    var (offset, len) := Unpack(p.index[hashes[k]]);
    var copy := CopyOf(p.bytes, Ranges(p.index, hashes));
    var from := SumLens(p.index, hashes[..k]);
    assert copy[from..from + len] == View(p)[hashes[k]];
  }

  /** All live blocks survive a stop. */
  ghost predicate LiveSurvive(p: Pack, hashes: seq<Hash>)
    requires Inv(p) && (forall h :: h in hashes ==> h in p.index) && RangesFit(p.bytes, Ranges(p.index, hashes))
  {
    forall k :: 0 <= k < |hashes| ==> ReadChunk(StoppedPack(p, hashes), hashes[k]) == Data(View(p)[hashes[k]])
  }

  /** The same index over other file contents. */
  ghost function Refilled(p: Pack, bytes: Bytes): Pack {
    p.(bytes := bytes)
  }

  lemma RefilledInv(p: Pack, bytes: Bytes, hashes: seq<Hash>)
    requires Inv(p) && |bytes| == |p.bytes| && forall h :: h in hashes ==> h in p.index
    ensures Inv(Refilled(p, bytes)) && RangesFit(bytes, Ranges(p.index, hashes))
  {
    hide Disjoint;
    hide Unpack;
    RangesInFile(Refilled(p, bytes), hashes);
  }

  /**
   * Whatever bytes the file holds every live block survives a stop, if and only if every non-empty one already stands
   * at its running offset: a condition on index and lengths alone.
   */
  lemma StopKeepsLiveIff(p: Pack, live: set<Hash>, hashes: seq<Hash>)
    requires Inv(p) && LiveList(p.index, live, hashes)
    ensures forall bytes :: |bytes| == |p.bytes| ==>
      Inv(Refilled(p, bytes)) && RangesFit(bytes, Ranges(p.index, hashes))
    ensures (forall bytes :: |bytes| == |p.bytes| ==> LiveSurvive(Refilled(p, bytes), hashes))
       <==> AlreadyInPlace(p.index, hashes)
  {
    forall bytes | |bytes| == |p.bytes|
      ensures Inv(Refilled(p, bytes)) && RangesFit(bytes, Ranges(p.index, hashes))
      ensures AlreadyInPlace(p.index, hashes) ==> LiveSurvive(Refilled(p, bytes), hashes)
    {
      RefilledInv(p, bytes, hashes);
      if AlreadyInPlace(p.index, hashes) { AllSurvive(Refilled(p, bytes), live, hashes); }
    }
    if !AlreadyInPlace(p.index, hashes) {
      var k :| 0 <= k < |hashes| && Unpack(p.index[hashes[k]]).1 > 0 &&
               Unpack(p.index[hashes[k]]).0 != SumLens(p.index, hashes[..k]);
      MarkedLost(p, live, hashes, k);
    }
  }

  lemma AllSurvive(p: Pack, live: set<Hash>, hashes: seq<Hash>)
    requires Inv(p) && LiveList(p.index, live, hashes) && AlreadyInPlace(p.index, hashes)
    requires RangesFit(p.bytes, Ranges(p.index, hashes))
    ensures LiveSurvive(p, hashes)
  {
    hide ReadChunk;
    hide StoppedPack;
    hide AlreadyInPlace;
    hide Unpack;
    hide Slice;
    hide Disjoint;
    forall k | 0 <= k < |hashes|
      ensures ReadChunk(StoppedPack(p, hashes), hashes[k]) == Data(View(p)[hashes[k]])
    {
      InPlaceStopKeepsLive(p, live, hashes, k);
    }
  }

  /** A file of zeros with a one at `at`. */
  function Marked(n: nat, at: nat): (bytes: Bytes)
    ensures |bytes| == n && forall i :: 0 <= i < n ==> bytes[i] == if i == at then 1 else 0
  {
    seq(n, i requires 0 <= i < n => if i == at then 1 else 0)
  }

  /** A place in two blocks' ranges is in one block. */
  lemma SharedPlace(index: Index, g: Hash, h: Hash, at: nat)
    requires Disjoint(index) && g in index && h in index
    requires Unpack(index[g]).0 <= at < Unpack(index[g]).0 + Unpack(index[g]).1
    requires Unpack(index[h]).0 <= at < Unpack(index[h]).0 + Unpack(index[h]).1
    ensures g == h
  {
    hide Unpack;
  }

  /** Every place of the copy belongs to some block. */
  lemma {:induction false} CoveredBy(index: Index, hashes: seq<Hash>, n: nat, at: nat) returns (l: nat)
    requires (forall h :: h in hashes ==> h in index) && n <= |hashes| && at < SumLens(index, hashes[..n])
    ensures l < n && SumLens(index, hashes[..l]) <= at < SumLens(index, hashes[..l]) + Unpack(index[hashes[l]]).1
  {
    hide Unpack;
    SumLensEmpty(index);
    assert n > 0;
    SumLensSnoc(index, hashes, n - 1);
    hide SumLens;
    if at < SumLens(index, hashes[..n - 1]) {
      l := CoveredBy(index, hashes, n - 1, at);
    } else {
      l := n - 1;
    }
  }

  /** With a single one in the file, at the start of block `k`, that block survives only where it stands. */
  lemma MarkedStays(p: Pack, live: set<Hash>, hashes: seq<Hash>, k: nat)
    requires Inv(p) && LiveList(p.index, live, hashes) && k < |hashes| && Unpack(p.index[hashes[k]]).1 > 0
    requires p.bytes == Marked(|p.bytes|, Unpack(p.index[hashes[k]]).0)
    requires RangesFit(p.bytes, Ranges(p.index, hashes)) && LiveSurvive(p, hashes)
    ensures Unpack(p.index[hashes[k]]).0 == SumLens(p.index, hashes[..k])
  {
    hide *;
    LiveIndexed(p, live, hashes);
    var (at, len) := Unpack(p.index[hashes[k]]);
    var copy := CopyOf(p.bytes, Ranges(p.index, hashes));
    SurvivesAt(p, live, hashes, k);
    assert copy[at] == copy[at..at + len][0] == p.bytes[at..at + len][0] == p.bytes[at] == 1;
    assert Disjoint(p.index) && Distinct(hashes) by { LiveFacts(p, live, hashes); }
    CopyLength(p.bytes, p.index, hashes);
    assert hashes[..|hashes|] == hashes;
    var l := CoveredBy(p.index, hashes, |hashes|, at);
    CopiedBlock(p, hashes, l);
    var (offset, size) := Unpack(p.index[hashes[l]]);
    var from := SumLens(p.index, hashes[..l]);
    SliceAt(p, hashes[l], offset, size);
    var there := offset + (at - from);
    assert copy[at]
         == copy[from..from + size][at - from] == p.bytes[offset..offset + size][at - from] == p.bytes[there];
    assert there == at;
    SharedPlace(p.index, hashes[k], hashes[l], at);
    SamePlace(hashes, k, l);
  }

  lemma LiveFacts(p: Pack, live: set<Hash>, hashes: seq<Hash>)
    requires Inv(p) && LiveList(p.index, live, hashes)
    ensures Disjoint(p.index) && Distinct(hashes)
  {
  }

  lemma SurvivesAt(p: Pack, live: set<Hash>, hashes: seq<Hash>, k: nat)
    requires Inv(p) && LiveList(p.index, live, hashes) && k < |hashes| && Unpack(p.index[hashes[k]]).1 > 0
    requires RangesFit(p.bytes, Ranges(p.index, hashes)) && LiveSurvive(p, hashes)
    ensures var (at, len) := Unpack(p.index[hashes[k]]);
            var copy := CopyOf(p.bytes, Ranges(p.index, hashes));
            at + len <= |copy| && at + len <= |p.bytes| && copy[at..at + len] == p.bytes[at..at + len]
  {
    StoppedReads(p, live, hashes, k);
    ViewAt(p, hashes[k]);
    SliceAt(p, hashes[k], Unpack(p.index[hashes[k]]).0, Unpack(p.index[hashes[k]]).1);
    hide Unpack;
    hide Disjoint;
    hide InBounds;
    hide StoppedPack;
    hide ReadChunk;
    hide View;
    hide Slice;
    hide CopyOf;
    hide Ranges;
    hide RangesFit;
    hide SumLens;
  }

  lemma SamePlace(hashes: seq<Hash>, k: nat, l: nat)
    requires Distinct(hashes) && k < |hashes| && l < |hashes| && hashes[k] == hashes[l]
    ensures k == l
  {
  }

  /** So a live block that has to move is lost for that file. */
  lemma MarkedLost(p: Pack, live: set<Hash>, hashes: seq<Hash>, k: nat)
    requires Inv(p) && LiveList(p.index, live, hashes) && k < |hashes|
    requires Unpack(p.index[hashes[k]]).1 > 0 && Unpack(p.index[hashes[k]]).0 != SumLens(p.index, hashes[..k])
    ensures exists bytes ::
      |bytes| == |p.bytes| && Inv(Refilled(p, bytes)) && RangesFit(bytes, Ranges(p.index, hashes)) &&
              !LiveSurvive(Refilled(p, bytes), hashes)
  {
    var bytes := Marked(|p.bytes|, Unpack(p.index[hashes[k]]).0);
    RefilledInv(p, bytes, hashes);
    var q := Refilled(p, bytes);
    hide Inv;
    hide LiveSurvive;
    hide Unpack;
    hide SumLens;
    if LiveSurvive(q, hashes) {
      MarkedStays(q, live, hashes, k);
    }
  }

  lemma LiveIndexed(p: Pack, live: set<Hash>, hashes: seq<Hash>)
    requires Inv(p) && LiveList(p.index, live, hashes)
    ensures forall h :: h in hashes ==> h in p.index && h in View(p)
  {
    hide Unpack;
    hide Disjoint;
    hide Slice;
    hide Sorted;
    hide Distinct;
  }

  lemma ViewAt(p: Pack, hash: Hash)
    requires Inv(p) && hash in p.index
    ensures View(p)[hash] == Slice(p, hash)
  {
    hide Unpack;
    hide Disjoint;
    hide Slice;
  }

  lemma InPlaceAt(index: Index, hashes: seq<Hash>, k: nat)
    requires (forall h :: h in hashes ==> h in index) && AlreadyInPlace(index, hashes) && k < |hashes|
    ensures Unpack(index[hashes[k]]).1 > 0 ==> Unpack(index[hashes[k]]).0 == SumLens(index, hashes[..k])
  {
    hide Unpack;
    hide SumLens;
  }

  /**
   * Compaction is not crash-atomic: between replacing the file and committing the index, a live block can read
   * past the end of the file and a dead one as somebody else's bytes.
   */
  lemma StoppedCompactionLosesBlocks(a: Hash, b: Hash)
    requires a != b
    ensures var p := TwoBlocks(a, b);
            Inv(p) && View(p) == map[a := [7], b := [9]] && LiveList(p.index, {b}, [b]) &&
            RangesFit(p.bytes, Ranges(p.index, [b])) &&
            var stopped := StoppedPack(p, [b]);
            ReadChunk(stopped, b) == UnexpectedEof && ReadChunk(stopped, a) == Data([9])
  {
    var p := TwoBlocks(a, b);
    TwoBlocksView(a, b);
    RangesInFile(p, [b]);
    TwoBlocksCompacted(a, b);
    hide Unpack;
    hide PackLoc;
    hide View;
    hide CopyOf;
    hide Ranges;
    hide RangesFit;
    hide Inv;
  }

  /** A pack file with the blocks `[7]` and `[9]`. */
  ghost function TwoBlocks(a: Hash, b: Hash): Pack {
    Pack([7, 9], 2, map[a := PackLoc(0, 1), b := PackLoc(1, 1)])
  }

  lemma TwoBlocksView(a: Hash, b: Hash)
    requires a != b
    ensures Unpack(TwoBlocks(a, b).index[a]) == (0, 1) && Unpack(TwoBlocks(a, b).index[b]) == (1, 1)
    ensures Inv(TwoBlocks(a, b)) && View(TwoBlocks(a, b)) == map[a := [7], b := [9]]
  {
    UnpackPack(0, 1);
    UnpackPack(1, 1);
    hide Unpack;
    hide PackLoc;
    var p := TwoBlocks(a, b);
    assert Inv(p);
    hide *;
    assert p.bytes[0..1] == [7] && p.bytes[1..2] == [9] && p.index.Keys == {a, b} by { TwoBlocksFields(a, b); }
    SliceAt(p, a, 0, 1);
    SliceAt(p, b, 1, 1);
    ViewOfTwo(p, a, b);
  }

  lemma TwoBlocksFields(a: Hash, b: Hash)
    ensures TwoBlocks(a, b).bytes[0..1] == [7] && TwoBlocks(a, b).bytes[1..2] == [9]
    ensures TwoBlocks(a, b).index.Keys == {a, b}
  {
  }

  lemma ViewOfTwo(p: Pack, a: Hash, b: Hash)
    requires Inv(p) && p.index.Keys == {a, b}
    ensures View(p) == map[a := Slice(p, a), b := Slice(p, b)]
  {
    hide Unpack;
    hide Slice;
    hide Disjoint;
  }

  lemma TwoBlocksCompacted(a: Hash, b: Hash)
    requires a != b && RangesFit([7, 9], Ranges(TwoBlocks(a, b).index, [b]))
    ensures CopyOf([7, 9], Ranges(TwoBlocks(a, b).index, [b])) == [9]
  {
    var index := TwoBlocks(a, b).index;
    UnpackPack(1, 1);
    hide Unpack;
    hide PackLoc;
    RangesTail(index, [b]);
    assert Ranges(index, [b])[1..] == [];
  }
}
