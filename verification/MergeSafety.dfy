/** The single changes a merge makes to the disk, and what stays true however many of them happen. */
module MergeSafety {
  import opened Common
  import opened Manifest
  import opened Merge

  /** Write the temporary file of an entry, remove a path, or rename a verified temporary file into place. */
  datatype Op = Touch(entry: FileEntry, content: Bytes) | Drop(path: Path) | Install(entry: FileEntry)

  function Apply(d: Disk, op: Op): Disk {
    match op
    case Touch(e, content) => d[TempName(e.name) := content]
    case Drop(path) => d - {path}
    case Install(e) =>
      var tmp := TempName(e.name);
      if tmp in d then (d - {tmp})[e.name := d[tmp]] else d
  }

  /** Only entries being merged are touched, and only bytes with the entry's file hash are renamed into place. */
  ghost predicate Legal(digest: Digest, entries: set<FileEntry>, d: Disk, op: Op) {
    match op
    case Touch(e, _) => e in entries
    case Drop(_) => true
    case Install(e) => e in entries && TempName(e.name) in d && digest(d[TempName(e.name)]) == e.fileHash
  }

  function ApplyAll(d: Disk, ops: seq<Op>): Disk
    decreases |ops|
  {
    if ops == [] then d else Apply(ApplyAll(d, ops[..|ops| - 1]), ops[|ops| - 1])
  }

  ghost predicate LegalRun(digest: Digest, entries: set<FileEntry>, d: Disk, ops: seq<Op>)
    decreases |ops|
  {
    ops == [] ||
    (LegalRun(digest, entries, d, ops[..|ops| - 1]) &&
      Legal(digest, entries, ApplyAll(d, ops[..|ops| - 1]), ops[|ops| - 1]))
  }

  lemma RunSnoc(digest: Digest, entries: set<FileEntry>, d: Disk, ops: seq<Op>, op: Op)
    requires LegalRun(digest, entries, d, ops) && Legal(digest, entries, ApplyAll(d, ops), op)
    ensures LegalRun(digest, entries, d, ops + [op]) && ApplyAll(d, ops + [op]) == Apply(ApplyAll(d, ops), op)
  {
    hide Legal;
    hide Apply;
    assert (ops + [op])[..|ops|] == ops;
  }

  /** Runs chain, also over different versions: this is how a retry after a stop reads. */
  lemma {:induction false} RunsChain(digest: Digest, e1: set<FileEntry>, e2: set<FileEntry>, d: Disk, a: seq<Op>,
      b: seq<Op>)
    requires LegalRun(digest, e1, d, a) && LegalRun(digest, e2, ApplyAll(d, a), b)
    ensures LegalRun(digest, e1 + e2, d, a + b) && ApplyAll(d, a + b) == ApplyAll(ApplyAll(d, a), b)
    decreases |b|
  {
    hide Apply;
    if b == [] {
      assert a + b == a;
      RunWidens(digest, e1, e1 + e2, d, a);
    } else {
      var last := |b| - 1;
      RunsChain(digest, e1, e2, d, a, b[..last]);
      assert (a + b)[..|a + b| - 1] == a + b[..last];
    }
  }

  lemma {:induction false} RunWidens(digest: Digest, small: set<FileEntry>, big: set<FileEntry>, d: Disk, ops: seq<Op>)
    requires LegalRun(digest, small, d, ops) && small <= big
    ensures LegalRun(digest, big, d, ops)
    decreases |ops|
  {
    if ops != [] {
      RunWidens(digest, small, big, d, ops[..|ops| - 1]);
    }
  }

  lemma {:induction false} RunPrefix(digest: Digest, entries: set<FileEntry>, d: Disk, ops: seq<Op>, k: nat)
    requires LegalRun(digest, entries, d, ops) && k <= |ops|
    ensures LegalRun(digest, entries, d, ops[..k])
    decreases |ops|
  {
    if k == |ops| {
      assert ops[..k] == ops;
    } else {
      RunPrefix(digest, entries, d, ops[..|ops| - 1], k);
      assert ops[..|ops| - 1][..k] == ops[..k];
    }
  }

  /** What a managed name may hold: its first content, nothing, or bytes verified against an entry of that name. */
  ghost predicate Trustworthy(digest: Digest, entries: set<FileEntry>, start: Disk, d: Disk, n: Path) {
    n !in d || (n in start && d[n] == start[n]) ||
      (exists e :: e in entries && e.name == n && digest(d[n]) == e.fileHash)
  }

  lemma {:induction false} RunTrustworthy(digest: Digest, entries: set<FileEntry>, start: Disk, ops: seq<Op>, n: Path)
    requires LegalRun(digest, entries, start, ops)
    requires forall e :: e in entries ==> TempName(e.name) != n
    ensures Trustworthy(digest, entries, start, ApplyAll(start, ops), n)
    decreases |ops|
  {
    hide TempName;
    if ops != [] {
      RunTrustworthy(digest, entries, start, ops[..|ops| - 1], n);
    }
  }

  /**
   * Stop any sequence of merges between any two changes: every managed name still holds its first content, nothing,
   * or a complete file with the hash some merged version gives it. Never a partial or unverified file.
   */
  lemma MergesAlwaysTrustworthy(digest: Digest, entries: set<FileEntry>, start: Disk, ops: seq<Op>, k: nat, n: Path)
    requires LegalRun(digest, entries, start, ops) && k <= |ops|
    requires forall e :: e in entries ==> TempName(e.name) != n
    ensures Trustworthy(digest, entries, start, ApplyAll(start, ops[..k]), n)
  {
    RunPrefix(digest, entries, start, ops, k);
    RunTrustworthy(digest, entries, start, ops[..k], n);
  }
}
