/** Merging again over a disk that a failed or interrupted merge left behind. */
module MergeRetry {
  import opened Common
  import opened Manifest
  import opened ChunkMap
  import opened UpdatePlan
  import opened Merge
  import opened MergeTheorems
  import opened CafeUpdate
  import opened MergeSafety

  /** No file of a new version's name holds foreign bytes that collide with the entry's content. */
  ghost predicate NoFalseFile(digest: Digest, u: Update, d: Disk)
    requires AllKnown(u.lib, u.next)
  {
    forall i :: 0 <= i < |u.next| && u.next[i].name in d ==>
      NoCollision(digest, {d[u.next[i].name], Content(u.lib, u.next[i].chunks)})
  }

  /** The update as the next attempt finds it: the disk after the first `k` changes, other temporary blocks. */
  ghost function Again(u: Update, ops: seq<Op>, k: nat, temp: Temp): Update
    requires k <= |ops|
  {
    u.(disk := ApplyAll(u.disk, ops[..k]), temp := temp)
  }

  /**
   * However many attempts at the same version ran, and wherever the last one stopped or failed, every old file has its
   * old or its new content or is missing.
   */
  lemma RetrySetting(digest: Digest, u: Update, ops: seq<Op>, k: nat, temp: Temp)
    requires Clean(digest, u) && LegalRun(digest, Elements(u.next), u.disk, ops) && k <= |ops|
    requires TempAuthentic(u.lib, temp) && NoFalseFile(digest, u, ApplyAll(u.disk, ops[..k]))
    ensures Clean(digest, Again(u, ops, k, temp))
  {
    hide *;
    var w := Again(u, ops, k, temp);
    assert w.lib == u.lib && w.prev == u.prev && w.next == u.next && w.temp == temp &&
      w.disk == ApplyAll(u.disk, ops[..k]) by {
      AgainFields(u, ops, k, temp);
    }
    forall i | 0 <= i < |u.prev| && u.prev[i].name in w.disk
      ensures HoldsOld(w, u.prev[i].name) || HoldsNew(w, u.prev[i].name)
    {
      var n := u.prev[i].name;
      assert forall e :: e in Elements(u.next) ==> TempName(e.name) != n by { NotTemporary(digest, u, i); }
      MergesAlwaysTrustworthy(digest, Elements(u.next), u.disk, ops, k, n);
      TrustedIsOldOrNew(digest, u, w, i);
    }
    SettingAgain(digest, u, w);
  }

  lemma AgainFields(u: Update, ops: seq<Op>, k: nat, temp: Temp)
    requires k <= |ops|
    ensures var w := Again(u, ops, k, temp);
            w.lib == u.lib && w.prev == u.prev && w.next == u.next && w.temp == temp &&
              w.disk == ApplyAll(u.disk, ops[..k])
  {
    hide ApplyAll;
  }

  lemma NotTemporary(digest: Digest, u: Update, i: nat)
    requires Clean(digest, u) && i < |u.prev|
    ensures forall e :: e in Elements(u.next) ==> TempName(e.name) != u.prev[i].name
  {
    hide TempName;
    hide Realized;
    hide OldOrNew;
    hide HashesDecide;
    hide TempAuthentic;
    assert u.prev[i] in u.prev;
    assert NoTempClash(u.prev, u.next);
    forall e | e in Elements(u.next)
      ensures TempName(e.name) != u.prev[i].name
    {
      var j :| 0 <= j < |u.next| && u.next[j] == e;
    }
  }

  lemma TrustedIsOldOrNew(digest: Digest, u: Update, w: Update, i: nat)
    requires Clean(digest, u) && i < |u.prev| && u.prev[i].name in w.disk
    requires w.lib == u.lib && w.prev == u.prev && w.next == u.next && NoFalseFile(digest, u, w.disk)
    requires Trustworthy(digest, Elements(u.next), u.disk, w.disk, u.prev[i].name)
    ensures HoldsOld(w, u.prev[i].name) || HoldsNew(w, u.prev[i].name)
  {
    hide TempName;
    hide Content;
    hide ChunksKnown;
    hide FileIndex;
    hide HashesDecide;
    var n := u.prev[i].name;
    if n in u.disk && w.disk[n] == u.disk[n] {
      assert HoldsOld(u, n) || HoldsNew(u, n);
    } else {
      var e :| e in Elements(u.next) && e.name == n && digest(w.disk[n]) == e.fileHash;
      var j :| 0 <= j < |u.next| && u.next[j] == e;
      assert NoCollision(digest, {w.disk[n], Content(u.lib, u.next[j].chunks)});
      EntryOfName(u.next, e);
    }
  }

  lemma SettingAgain(digest: Digest, u: Update, w: Update)
    requires Clean(digest, u) && w.lib == u.lib && w.prev == u.prev && w.next == u.next && TempAuthentic(u.lib, w.temp)
    requires forall i :: 0 <= i < |u.prev| && u.prev[i].name in w.disk ==>
      HoldsOld(w, u.prev[i].name) || HoldsNew(w, u.prev[i].name)
    ensures Clean(digest, w)
  {
    hide HoldsOld;
    hide HoldsNew;
    hide Realized;
    hide NoTempClash;
  }

  /**
   * When a retry succeeds: on the disk after any run of changes of attempts at the same version, and with whatever was
   * downloaded since, it has no failures if and only if no due entry lost a source, and then the version is installed.
   */
  lemma RetrySucceedsIff(digest: Digest, u: Update, ops: seq<Op>, k: nat, temp: Temp, before: set<Hash>)
    requires Clean(digest, u) && LegalRun(digest, Elements(u.next), u.disk, ops) && k <= |ops|
    requires TempAuthentic(u.lib, temp) && NoFalseFile(digest, u, ApplyAll(u.disk, ops[..k]))
    requires Downloaded(Again(u, ops, k, temp), before)
    ensures var w := Again(u, ops, k, temp);
            AllKnown(w.lib, w.next) &&
            var (d, summary) := MergeFiles(digest, w.disk, temp, u.prev, u.next);
            (NoFalseAccept(digest, w) ==> (summary.failed == [] <==> NoLostSource(w))) &&
            (NoLostSource(w) ==> Installed(u.lib, d, u.next))
  {
    hide *;
    var w := Again(u, ops, k, temp);
    AgainFields(u, ops, k, temp);
    RetrySetting(digest, u, ops, k, temp);
    assert Setting(digest, w) by { CleanIs(digest, w); }
    SettingKnown(digest, w);
    CleanIdle(digest, w);
    if NoFalseAccept(digest, w) { WholeUpdateSucceedsIff(digest, w, before); }
    if NoLostSource(w) { WholeUpdateInstallsIff(digest, w, before); }
  }

  lemma CleanIs(digest: Digest, u: Update)
    requires Clean(digest, u)
    ensures Setting(digest, u)
  {
  }
}
