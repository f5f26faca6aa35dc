/** Which files a merge loses to its own temporary files. */
module TempFiles {
  import opened Common
  import opened Manifest
  import opened ChunkMap
  import opened UpdatePlan
  import opened Merge
  import opened MergeTheorems

  /** Merging one entry keeps another file on disk exactly when that file is not its temporary file. */
  lemma MergeOneKeepsIff(digest: Digest, d: Disk, temp: Temp, prev: seq<FileEntry>, e: FileEntry, n: Path)
    requires n in d && n != e.name
    ensures SameAt(MergeOne(digest, d, temp, prev, e).0, d, n) <==> TempName(e.name) != n
    ensures TempName(e.name) == n ==> n !in MergeOne(digest, d, temp, prev, e).0
  {
    hide Assemble;
    hide TempName;
  }

  lemma MergeOneMakes(digest: Digest, d: Disk, temp: Temp, prev: seq<FileEntry>, e: FileEntry)
    ensures MergeOne(digest, d, temp, prev, e).0.Keys <= d.Keys + {e.name}
    ensures TempName(e.name) == e.name ==> MergeOne(digest, d, temp, prev, e) == (d - {e.name}, false)
  {
    hide Assemble;
    hide TempName;
  }

  /** Entry `j` is merged in this run. */
  ghost predicate Runs(digest: Digest, d: Disk, temp: Temp, prev: seq<FileEntry>, next: seq<FileEntry>, j: nat)
    requires j < |next|
  {
    NeedMerge(Upto(digest, d, temp, prev, next, j).disk, prev, next[j])
  }

  /** One turn of the loop: nothing, or a merge whose failure is noted. */
  lemma Turn(digest: Digest, d: Disk, temp: Temp, prev: seq<FileEntry>, next: seq<FileEntry>, j: nat)
    requires j < |next|
    ensures var m, m' := Upto(digest, d, temp, prev, next, j), Upto(digest, d, temp, prev, next, j + 1);
            var one := MergeOne(digest, m.disk, temp, prev, next[j]);
            if Runs(digest, d, temp, prev, next, j)
            then m'.disk == one.0 && m'.failed == (if one.1 then m.failed else m.failed + [next[j].name])
            else m' == m
  {
    hide MergeOne;
    hide NeedMerge;
  }

  /**
   * From any point of the loop on, a file that no later entry replaces is kept exactly when it is the temporary file
   * of no entry merged later.
   */
  lemma {:induction false} KeptIff(digest: Digest, d: Disk, temp: Temp, prev: seq<FileEntry>, next: seq<FileEntry>,
      from: nat, i: nat, n: Path)
    requires from <= i <= |next| && n in Upto(digest, d, temp, prev, next, from).disk
    requires forall j :: from <= j < i && Runs(digest, d, temp, prev, next, j) ==> next[j].name != n
    ensures SameAt(Upto(digest, d, temp, prev, next, i).disk, Upto(digest, d, temp, prev, next, from).disk, n)
       <==> forall j :: from <= j < i && Runs(digest, d, temp, prev, next, j) ==> TempName(next[j].name) != n
    ensures n in Upto(digest, d, temp, prev, next, i).disk
       ==> SameAt(Upto(digest, d, temp, prev, next, i).disk, Upto(digest, d, temp, prev, next, from).disk, n)
  {
    hide Upto;
    hide Runs;
    hide MergeOne;
    hide TempName;
    if from < i {
      KeptIff(digest, d, temp, prev, next, from, i - 1, n);
      Turn(digest, d, temp, prev, next, i - 1);
      var m := Upto(digest, d, temp, prev, next, i - 1);
      MergeOneMakes(digest, m.disk, temp, prev, next[i - 1]);
      if n in m.disk && n != next[i - 1].name { MergeOneKeepsIff(digest, m.disk, temp, prev, next[i - 1], n); }
    }
  }

  /** The loop creates no file but those of its entries. */
  lemma {:induction false} NothingElse(digest: Digest, d: Disk, temp: Temp, prev: seq<FileEntry>,
      next: seq<FileEntry>, from: nat, i: nat, n: Path)
    requires from <= i <= |next| && n !in Upto(digest, d, temp, prev, next, from).disk
    requires forall j :: from <= j < i ==> next[j].name != n
    ensures n !in Upto(digest, d, temp, prev, next, i).disk
  {
    hide Upto;
    hide MergeOne;
    hide Runs;
    if from < i {
      NothingElse(digest, d, temp, prev, next, from, i - 1, n);
      Turn(digest, d, temp, prev, next, i - 1);
      MergeOneMakes(digest, Upto(digest, d, temp, prev, next, i - 1).disk, temp, prev, next[i - 1]);
    }
  }

  /** An entry that is due at the start is merged when its turn comes. */
  lemma StartDueRuns(digest: Digest, d: Disk, temp: Temp, prev: seq<FileEntry>, next: seq<FileEntry>, j: nat)
    requires UniqueNames(next) && j < |next| && NeedMerge(d, prev, next[j])
    ensures Runs(digest, d, temp, prev, next, j)
  {
    hide FileIndex;
    hide Upto;
    UptoStart(digest, d, temp, prev, next);
    if next[j].name !in d {
      NothingElse(digest, d, temp, prev, next, 0, j, next[j].name);
    }
  }

  /** A file that is there and is not about to be replaced. */
  ghost predicate Idle(d: Disk, prev: seq<FileEntry>, next: seq<FileEntry>, n: Path) {
    n in d && forall j :: 0 <= j < |next| && next[j].name == n ==> !NeedMerge(d, prev, next[j])
  }

  /** No entry that is due has an idle managed file as its temporary file. */
  ghost predicate NoIdleTemp(d: Disk, prev: seq<FileEntry>, next: seq<FileEntry>) {
    forall j :: 0 <= j < |next| && NeedMerge(d, prev, next[j]) ==>
      !(TempName(next[j].name) in Names(prev) + Names(next) && Idle(d, prev, next, TempName(next[j].name)))
  }

  /** Without such an entry idle managed files are untouched and exactly the entries due at the start are merged. */
  lemma {:induction false} IdleKept(digest: Digest, d: Disk, temp: Temp, prev: seq<FileEntry>, next: seq<FileEntry>,
      i: nat)
    requires UniqueNames(next) && NoIdleTemp(d, prev, next) && i <= |next|
    ensures forall n :: n in Names(prev) + Names(next) && Idle(d, prev, next, n) ==>
      SameAt(Upto(digest, d, temp, prev, next, i).disk, d, n)
    ensures forall j :: 0 <= j < i && Runs(digest, d, temp, prev, next, j) ==> NeedMerge(d, prev, next[j])
  {
    hide Upto;
    hide MergeOne;
    hide TempName;
    UptoStart(digest, d, temp, prev, next);
    if i > 0 {
      IdleKept(digest, d, temp, prev, next, i - 1);
      var m := Upto(digest, d, temp, prev, next, i - 1);
      var e := next[i - 1];
      assert Runs(digest, d, temp, prev, next, i - 1) ==> NeedMerge(d, prev, e) by {
        StillIdle(digest, d, temp, prev, next, i - 1);
      }
      Turn(digest, d, temp, prev, next, i - 1);
      hide Runs;
      hide NeedMerge;
      forall n | n in Names(prev) + Names(next) && Idle(d, prev, next, n)
        ensures SameAt(Upto(digest, d, temp, prev, next, i).disk, d, n)
      {
        assert SameAt(m.disk, d, n);
        if Runs(digest, d, temp, prev, next, i - 1) {
          MergeOneKeepsIff(digest, m.disk, temp, prev, e, n);
        }
      }
    }
  }

  lemma StillIdle(digest: Digest, d: Disk, temp: Temp, prev: seq<FileEntry>, next: seq<FileEntry>, j: nat)
    requires UniqueNames(next) && j < |next|
    requires forall n :: n in Names(prev) + Names(next) && Idle(d, prev, next, n) ==>
      SameAt(Upto(digest, d, temp, prev, next, j).disk, d, n)
    ensures Runs(digest, d, temp, prev, next, j) ==> NeedMerge(d, prev, next[j])
  {
    hide FileIndex;
    hide Upto;
    if !NeedMerge(d, prev, next[j]) {
      assert next[j] in next;
      assert Idle(d, prev, next, next[j].name);
    }
  }

  /** Through the whole loop every idle managed file stays as it was. */
  ghost predicate IdleSafe(digest: Digest, d: Disk, temp: Temp, prev: seq<FileEntry>, next: seq<FileEntry>) {
    forall i, n :: 0 <= i <= |next| && n in Names(prev) + Names(next) && Idle(d, prev, next, n) ==>
      SameAt(Upto(digest, d, temp, prev, next, i).disk, d, n)
  }

  /**
   * The temporary files of a merge leave every idle managed file alone if and only if no entry that is due has one of
   * them as its temporary file: a condition on the two versions and the files present before the merge.
   */
  lemma TempFilesHarmlessIff(digest: Digest, d: Disk, temp: Temp, prev: seq<FileEntry>, next: seq<FileEntry>)
    requires UniqueNames(next)
    ensures IdleSafe(digest, d, temp, prev, next) <==> NoIdleTemp(d, prev, next)
  {
    hide Upto;
    hide TempName;
    hide NeedMerge;
    hide Idle;
    if NoIdleTemp(d, prev, next) {
      forall i, n | 0 <= i <= |next| && n in Names(prev) + Names(next) && Idle(d, prev, next, n)
        ensures SameAt(Upto(digest, d, temp, prev, next, i).disk, d, n)
      {
        IdleKept(digest, d, temp, prev, next, i);
      }
    } else {
      var j :| 0 <= j < |next| && NeedMerge(d, prev, next[j]) &&
               TempName(next[j].name) in Names(prev) + Names(next) && Idle(d, prev, next, TempName(next[j].name));
      IdleLost(digest, d, temp, prev, next, j);
      assert !SameAt(Upto(digest, d, temp, prev, next, j + 1).disk, d, TempName(next[j].name));
    }
  }

  /** A due entry removes a file that bears its temporary name. */
  lemma IdleLost(digest: Digest, d: Disk, temp: Temp, prev: seq<FileEntry>, next: seq<FileEntry>, j: nat)
    requires UniqueNames(next) && j < |next| && NeedMerge(d, prev, next[j]) &&
      Idle(d, prev, next, TempName(next[j].name))
    ensures TempName(next[j].name) in d && TempName(next[j].name) !in Upto(digest, d, temp, prev, next, j + 1).disk
  {
    var n := TempName(next[j].name);
    assert n in d && n != next[j].name;
    hide *;
    StartDueRuns(digest, d, temp, prev, next, j);
    var m := Upto(digest, d, temp, prev, next, j);
    Turn(digest, d, temp, prev, next, j);
    if n in m.disk {
      MergeOneKeepsIff(digest, m.disk, temp, prev, next[j], n);
    } else {
      MergeOneMakes(digest, m.disk, temp, prev, next[j]);
    }
  }

  /** A file that is its own temporary name never comes back, even when an entry tries to rebuild it. */
  lemma {:induction false} StaysGone(digest: Digest, d: Disk, temp: Temp, prev: seq<FileEntry>, next: seq<FileEntry>,
      from: nat, i: nat, n: Path)
    requires from <= i <= |next| && n !in Upto(digest, d, temp, prev, next, from).disk && TempName(n) == n
    ensures n !in Upto(digest, d, temp, prev, next, i).disk
  {
    hide *;
    if from < i {
      StaysGone(digest, d, temp, prev, next, from, i - 1, n);
      Turn(digest, d, temp, prev, next, i - 1);
      MergeOneMakes(digest, Upto(digest, d, temp, prev, next, i - 1).disk, temp, prev, next[i - 1]);
    }
  }

  /** A proper file name does not end in a slash. */
  predicate FileName(n: Path) {
    n != [] && n[|n| - 1] != SLASH
  }

  lemma TempIsOwnTemp(n: Path)
    requires FileName(n)
    ensures TempName(TempName(n)) == TempName(n)
  {
    hide LastOf;
    var stem := Stem(n);
    assert stem != [] && stem[|stem| - 1] != SLASH by { StemIsFileName(n); }
    NewExtensionIsOwnTemp(stem);
    hide Stem;
    assert TempName(n) == stem + DOT_NEW;
  }

  lemma StemIsFileName(n: Path)
    requires FileName(n)
    ensures Stem(n) != [] && Stem(n)[|Stem(n)| - 1] != SLASH
  {
    hide LastOf;
    var start := LastOf(n, SLASH) + 1;
    var dot := LastOf(n[start..], DOT);
    if dot > 0 {
      assert Stem(n)[|Stem(n)| - 1] == n[start + dot - 1];
    }
  }

  /**
   * What a whole merge, deletes included, does to an idle file that bears the temporary name of a due entry: it is
   * gone.
   */
  lemma IdleGone(digest: Digest, d: Disk, temp: Temp, prev: seq<FileEntry>, next: seq<FileEntry>, j: nat)
    requires UniqueNames(next) && j < |next| && NeedMerge(d, prev, next[j]) &&
      Idle(d, prev, next, TempName(next[j].name))
    requires FileName(next[j].name)
    ensures TempName(next[j].name) in d && TempName(next[j].name) !in MergeFiles(digest, d, temp, prev, next).0
  {
    hide *;
    IdleLost(digest, d, temp, prev, next, j);
    TempIsOwnTemp(next[j].name);
    StaysGone(digest, d, temp, prev, next, j + 1, |next|, TempName(next[j].name));
    MergeEnd(digest, d, temp, prev, next);
  }

  /** A due file that is its own temporary name is always reported failed, and gone, whatever blocks there are. */
  lemma OwnTempAlwaysFails(digest: Digest, d: Disk, temp: Temp, prev: seq<FileEntry>, next: seq<FileEntry>, j: nat)
    requires UniqueNames(next) && j < |next| && NeedMerge(d, prev, next[j]) && TempName(next[j].name) == next[j].name
    ensures next[j].name in MergeFiles(digest, d, temp, prev, next).1.failed
    ensures next[j].name !in MergeFiles(digest, d, temp, prev, next).0
  {
    hide *;
    var n := next[j].name;
    StartDueRuns(digest, d, temp, prev, next, j);
    Turn(digest, d, temp, prev, next, j);
    MergeOneMakes(digest, Upto(digest, d, temp, prev, next, j).disk, temp, prev, next[j]);
    FailedStay(digest, d, temp, prev, next, j + 1, |next|);
    var m := Upto(digest, d, temp, prev, next, |next|);
    assert n in m.failed by { LastStays(Upto(digest, d, temp, prev, next, j).failed, m.failed, n); }
    assert n !in m.disk by { StaysGone(digest, d, temp, prev, next, j + 1, |next|, n); }
    MergeEnd(digest, d, temp, prev, next);
  }
}
