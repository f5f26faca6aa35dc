/** What a merge does to every file of either version, whatever is on disk and in the temporary blocks. */
module MergeOutcome {
  import opened Common
  import opened Manifest
  import opened ChunkMap
  import opened UpdatePlan
  import opened Merge
  import opened MergeTheorems

  /** The file is missing, or the old version has no file of that name and hash. */
  ghost predicate IsDue(d: Disk, prev: seq<FileEntry>, e: FileEntry) {
    e.name !in d || forall f :: f in prev && f.name == e.name ==> f.fileHash != e.fileHash
  }

  lemma DueIs(d: Disk, prev: seq<FileEntry>, e: FileEntry)
    requires UniqueNames(prev)
    ensures NeedMerge(d, prev, e) <==> IsDue(d, prev, e)
  {
    IndexKeys(prev, e.name);
    forall f | f in prev && f.name == e.name
      ensures e.name in FileIndex(prev) && FileIndex(prev)[e.name] == f
    {
      var k :| 0 <= k < |prev| && prev[k] == f;
      IndexUnique(prev, k);
    }
    hide FileIndex;
  }

  ghost function DueSet(d: Disk, prev: seq<FileEntry>, next: seq<FileEntry>, i: nat): set<nat>
    requires i <= |next|
  {
    set j: nat | j < i && IsDue(d, prev, next[j])
  }

  lemma DueNext(d: Disk, prev: seq<FileEntry>, next: seq<FileEntry>, i: nat)
    requires i < |next|
    ensures |DueSet(d, prev, next, i + 1)| == |DueSet(d, prev, next, i)| + if IsDue(d, prev, next[i]) then 1 else 0
  {
    hide IsDue;
    var before := DueSet(d, prev, next, i);
    assert DueSet(d, prev, next, i + 1) == if IsDue(d, prev, next[i]) then before + {i} else before;
  }

  /** What became of entry `j` once the first `i` were walked. */
  ghost predicate Settled(digest: Digest, d: Disk, prev: seq<FileEntry>, e: FileEntry, walked: bool, m: Progress) {
    if walked && IsDue(d, prev, e) && e.name !in m.failed then
      e.name in m.disk && digest(m.disk[e.name]) == e.fileHash
    else SameAt(m.disk, d, e.name) && (e.name in m.failed ==> walked && IsDue(d, prev, e))
  }

  ghost predicate AllSettled(digest: Digest, d: Disk, prev: seq<FileEntry>, next: seq<FileEntry>, i: nat, m: Progress)
    requires i <= |next|
  {
    (forall j :: 0 <= j < |next| ==> Settled(digest, d, prev, next[j], j < i, m)) &&
    (forall n :: n in Names(prev) && n !in Names(next) ==> SameAt(m.disk, d, n)) &&
    m.merged + |m.failed| == |DueSet(d, prev, next, i)|
  }

  /** One entry changes only its own file and its temporary one, and its own only when it is verified. */
  lemma MergeOneTouches(digest: Digest, d: Disk, temp: Temp, prev: seq<FileEntry>, e: FileEntry)
    ensures var (d', ok) := MergeOne(digest, d, temp, prev, e);
            (forall n :: n != e.name && n != TempName(e.name) ==> SameAt(d', d, n)) &&
            (ok ==> e.name in d' && digest(d'[e.name]) == e.fileHash) &&
            (!ok && TempName(e.name) != e.name ==> SameAt(d', d, e.name))
  {
    hide Assemble;
    hide TempName;
  }

  /** What one turn of the loop does to a file of either version. */
  ghost predicate Turned(digest: Digest, d: Disk, prev: seq<FileEntry>, e: FileEntry, m: Progress, m': Progress) {
    if !IsDue(d, prev, e) then m' == m
    else
      (m'.failed == m.failed && m'.merged == m.merged + 1 && e.name in m'.disk &&
        digest(m'.disk[e.name]) == e.fileHash) ||
      (m'.failed == m.failed + [e.name] && m'.merged == m.merged && SameAt(m'.disk, m.disk, e.name))
  }

  lemma StepTurns(digest: Digest, d: Disk, temp: Temp, prev: seq<FileEntry>, next: seq<FileEntry>, i: nat, m: Progress)
    requires UniqueNames(prev) && NoTempClash(prev, next) && i < |next| && SameAt(m.disk, d, next[i].name)
    ensures var m' := Step(digest, temp, prev, m, next[i]);
            Turned(digest, d, prev, next[i], m, m') &&
            forall n :: n in Names(prev) + Names(next) && n != next[i].name ==> SameAt(m'.disk, m.disk, n)
  {
    hide IsDue;
    hide MergeOne;
    hide TempName;
    hide NeedMerge;
    var e := next[i];
    assert e in next;
    DueIs(m.disk, prev, e);
    DueSame(m.disk, d, prev, e);
    MergeOneTouches(digest, m.disk, temp, prev, e);
    assert TempName(e.name) !in Names(prev) + Names(next);
  }

  lemma EntrySettles(digest: Digest, d: Disk, prev: seq<FileEntry>, e: FileEntry, f: FileEntry, walked: bool,
      m: Progress, m': Progress)
    requires Turned(digest, d, prev, e, m, m') && Settled(digest, d, prev, f, walked, m)
    requires f.name != e.name && SameAt(m'.disk, m.disk, f.name)
    ensures Settled(digest, d, prev, f, walked, m')
  {
    hide IsDue;
  }

  lemma StepSettles(digest: Digest, d: Disk, temp: Temp, prev: seq<FileEntry>, next: seq<FileEntry>, i: nat,
      m: Progress)
    requires UniqueNames(prev) && UniqueNames(next) && NoTempClash(prev, next) && i < |next|
    requires AllSettled(digest, d, prev, next, i, m)
    ensures AllSettled(digest, d, prev, next, i + 1, Step(digest, temp, prev, m, next[i]))
  {
    hide *;
    SettledAt(digest, d, prev, next, i, m, i);
    StepTurns(digest, d, temp, prev, next, i, m);
    var m' := Step(digest, temp, prev, m, next[i]);
    forall j | 0 <= j < |next|
      ensures Settled(digest, d, prev, next[j], j < i + 1, m')
    {
      SettledAt(digest, d, prev, next, i, m, j);
      InNames(prev, next, j);
      if j == i {
        SettlesHere(digest, d, prev, next[i], m, m');
      } else {
        OtherName(next, i, j);
        EntrySettles(digest, d, prev, next[i], next[j], j < i, m, m');
      }
    }
    OthersSettle(digest, d, prev, next, i, m, m');
  }

  lemma SettledAt(digest: Digest, d: Disk, prev: seq<FileEntry>, next: seq<FileEntry>, i: nat, m: Progress, j: nat)
    requires i <= |next| && AllSettled(digest, d, prev, next, i, m) && j < |next|
    ensures Settled(digest, d, prev, next[j], j < i, m)
    ensures j >= i ==> SameAt(m.disk, d, next[j].name) && next[j].name !in m.failed
  {
    hide IsDue;
  }

  lemma InNames(prev: seq<FileEntry>, next: seq<FileEntry>, j: nat)
    requires j < |next|
    ensures next[j].name in Names(prev) + Names(next)
  {
    assert next[j] in next;
  }

  lemma OtherName(next: seq<FileEntry>, i: nat, j: nat)
    requires UniqueNames(next) && i < |next| && j < |next| && i != j
    ensures next[j].name != next[i].name
  {
  }

  lemma SettlesHere(digest: Digest, d: Disk, prev: seq<FileEntry>, e: FileEntry, m: Progress, m': Progress)
    requires Turned(digest, d, prev, e, m, m') && SameAt(m.disk, d, e.name) && e.name !in m.failed
    ensures Settled(digest, d, prev, e, true, m')
  {
    hide IsDue;
  }

  lemma OthersSettle(digest: Digest, d: Disk, prev: seq<FileEntry>, next: seq<FileEntry>, i: nat, m: Progress,
      m': Progress)
    requires i < |next| && AllSettled(digest, d, prev, next, i, m) && Turned(digest, d, prev, next[i], m, m')
    requires forall n :: n in Names(prev) + Names(next) && n != next[i].name ==> SameAt(m'.disk, m.disk, n)
    requires forall j :: 0 <= j < |next| ==> Settled(digest, d, prev, next[j], j < i + 1, m')
    ensures AllSettled(digest, d, prev, next, i + 1, m')
  {
    hide IsDue;
    hide DueSet;
    hide Settled;
    assert next[i] in next && next[i].name in Names(next);
    DueNext(d, prev, next, i);
    forall n | n in Names(prev) && n !in Names(next)
      ensures SameAt(m'.disk, d, n)
    {
      assert SameAt(m'.disk, m.disk, n);
    }
  }

  lemma DueSame(a: Disk, b: Disk, prev: seq<FileEntry>, e: FileEntry)
    requires SameAt(a, b, e.name)
    ensures IsDue(a, prev, e) <==> IsDue(b, prev, e)
  {
  }

  lemma {:induction false} UptoSettles(digest: Digest, d: Disk, temp: Temp, prev: seq<FileEntry>, next: seq<FileEntry>,
      i: nat)
    requires UniqueNames(prev) && UniqueNames(next) && NoTempClash(prev, next) && i <= |next|
    ensures AllSettled(digest, d, prev, next, i, Upto(digest, d, temp, prev, next, i))
  {
    hide *;
    if i > 0 {
      UptoStep(digest, d, temp, prev, next, i - 1);
      UptoSettles(digest, d, temp, prev, next, i - 1);
      StepSettles(digest, d, temp, prev, next, i - 1, Upto(digest, d, temp, prev, next, i - 1));
    } else {
      UptoStart(digest, d, temp, prev, next);
      NothingSettled(digest, d, prev, next);
    }
  }

  lemma NothingSettled(digest: Digest, d: Disk, prev: seq<FileEntry>, next: seq<FileEntry>)
    ensures AllSettled(digest, d, prev, next, 0, Progress(d, 0, []))
  {
    hide IsDue;
    assert DueSet(d, prev, next, 0) == {};
  }

  /**
   * A whole merge: every due entry is either replaced by bytes with its file hash or noted as failed, with its file as
   * it was; the other files of the new version are as they were; the files only the old version has are gone. The
   * counters say how many.
   */
  lemma MergeOutcome(digest: Digest, d: Disk, temp: Temp, prev: seq<FileEntry>, next: seq<FileEntry>)
    requires UniqueNames(prev) && UniqueNames(next) && NoTempClash(prev, next)
    ensures var (d', s) := MergeFiles(digest, d, temp, prev, next);
            (forall e :: e in next ==>
               if IsDue(d, prev, e) && e.name !in s.failed then e.name in d' && digest(d'[e.name]) == e.fileHash
               else SameAt(d', d, e.name) && (e.name in s.failed ==> IsDue(d, prev, e))) &&
            (forall n :: n in Names(prev) && n !in Names(next) ==> n !in d') &&
            s.merged + |s.failed| == |DueSet(d, prev, next, |next|)| &&
            s.deleted == |set n | n in d && n in Names(prev) && n !in Names(next)|
  {
    hide *;
    var m := Upto(digest, d, temp, prev, next, |next|);
    UptoSettles(digest, d, temp, prev, next, |next|);
    MergeEnd(digest, d, temp, prev, next);
    forall e | e in next
      ensures Settled(digest, d, prev, e, true, m)
    {
      var j :| 0 <= j < |next| && next[j] == e;
      SettledAt(digest, d, prev, next, |next|, m, j);
    }
    Deletes(digest, d, prev, next, m);
  }

  lemma Deletes(digest: Digest, d: Disk, prev: seq<FileEntry>, next: seq<FileEntry>, m: Progress)
    requires AllSettled(digest, d, prev, next, |next|, m)
    requires forall e :: e in next ==> Settled(digest, d, prev, e, true, m)
    ensures var gone := (Names(prev) - Names(next)) * m.disk.Keys;
            var d' := m.disk - gone;
            (forall e :: e in next ==>
               if IsDue(d, prev, e) && e.name !in m.failed then e.name in d' && digest(d'[e.name]) == e.fileHash
               else SameAt(d', d, e.name) && (e.name in m.failed ==> IsDue(d, prev, e))) &&
            (forall n :: n in Names(prev) && n !in Names(next) ==> n !in d') &&
            m.merged + |m.failed| == |DueSet(d, prev, next, |next|)| &&
            |gone| == |set n | n in d && n in Names(prev) && n !in Names(next)|
  {
    hide IsDue;
    hide DueSet;
    var gone := (Names(prev) - Names(next)) * m.disk.Keys;
    assert gone == set n | n in d && n in Names(prev) && n !in Names(next);
  }
}
