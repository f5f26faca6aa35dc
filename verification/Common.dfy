/** Bytes, block hashes and the few sequence facts that every component shares. */
module Common {
  type Byte = b: int | 0 <= b < 256
  type Bytes = seq<Byte>

  const HASH_LEN := 32
  const TWO32 := 0x1_0000_0000

  /** How many downloaded blocks an IDC node buffers before it appends them as one batch. */
  const IDC_BATCH_SIZE := 64

  type Hash = h: Bytes | |h| == HASH_LEN witness ZeroHash()

  /** The block hash (BLAKE3 in the program) is a parameter of every result: nothing is assumed about it. */
  type Digest = Bytes -> Hash

  /** A block hash together with the bytes that travel with it. */
  datatype Block = Block(hash: Hash, data: Bytes)

  datatype Option<+T> = None | Some(value: T)

  function ZeroHash(): Bytes {
    seq(HASH_LEN, _ => 0)
  }

  /** `digest` maps distinct members of `inPlay` to distinct hashes. */
  ghost predicate NoCollision(digest: Digest, inPlay: set<Bytes>) {
    forall a, b :: a in inPlay && b in inPlay && digest(a) == digest(b) ==> a == b
  }

  /** Every block hashes to its hash and has a length that fits the wire. */
  ghost predicate Verified(digest: Digest, blocks: seq<Block>) {
    forall b :: b in blocks ==> digest(b.data) == b.hash && |b.data| < TWO32
  }

  // ---------- concatenation ----------

  lemma JoinAssociates<T>(a: seq<T>, b: seq<T>, c: seq<T>)
    ensures a + (b + c) == a + b + c
  {
  }

  // ---------- lexicographic order of byte strings ----------

  predicate LexLe(a: Bytes, b: Bytes) {
    a == [] || (b != [] && (a[0] < b[0] || (a[0] == b[0] && LexLe(a[1..], b[1..]))))
  }

  lemma {:induction false} LexTotal(a: Bytes, b: Bytes)
    ensures LexLe(a, b) || LexLe(b, a)
  {
    if a != [] && b != [] {
      LexTotal(a[1..], b[1..]);
    }
  }

  lemma {:induction false} LexAntisymmetric(a: Bytes, b: Bytes)
    requires LexLe(a, b) && LexLe(b, a)
    ensures a == b
  {
    if a != [] && b != [] {
      LexAntisymmetric(a[1..], b[1..]);
      assert a == [a[0]] + a[1..] && b == [b[0]] + b[1..];
    }
  }

  lemma {:induction false} LexTransitive(a: Bytes, b: Bytes, c: Bytes)
    requires LexLe(a, b) && LexLe(b, c)
    ensures LexLe(a, c)
  {
    if a != [] && a[0] == b[0] && b[0] == c[0] {
      LexTransitive(a[1..], b[1..], c[1..]);
    }
  }

  /** The first position where two strings part decides, and a prefix comes first. */
  lemma {:induction false} LexFirstDifference(a: Bytes, b: Bytes, k: nat)
    requires k <= |a| && k <= |b| && a[..k] == b[..k]
    requires k == |a| || k == |b| || a[k] != b[k]
    ensures LexLe(a, b) <==> k == |a| || (k < |b| && a[k] < b[k])
  {
    if k > 0 {
      assert a[0] == a[..k][0] && b[0] == b[..k][0];
      assert a[1..][..k - 1] == a[..k][1..] && b[1..][..k - 1] == b[..k][1..];
      LexFirstDifference(a[1..], b[1..], k - 1);
    }
  }

  ghost predicate Sorted(s: seq<Bytes>) {
    forall i, j :: 0 <= i < j < |s| ==> LexLe(s[i], s[j])
  }

  ghost predicate Distinct<T>(s: seq<T>) {
    forall i, j :: 0 <= i < j < |s| ==> s[i] != s[j]
  }

  ghost function Elements<T>(s: seq<T>): set<T> {
    set x | x in s
  }

  /** Sorting forgets the order in which a hash set was walked: the sorted list of a set is unique. */
  lemma {:induction false} SortedUnique(a: seq<Bytes>, b: seq<Bytes>)
    requires Sorted(a) && Distinct(a) && Sorted(b) && Distinct(b)
    requires Elements(a) == Elements(b)
    ensures a == b
  {
    NoElements(a);
    NoElements(b);
    if a != [] {
      assert a[0] in Elements(b) && b[0] in Elements(a);
      var i :| 0 <= i < |b| && b[i] == a[0];
      var j :| 0 <= j < |a| && a[j] == b[0];
      if i > 0 && j > 0 {
        LexAntisymmetric(a[0], b[0]);
      }
      assert a[0] == b[0];
      assert Elements(a[1..]) == Elements(a) - {a[0]} by { TailElements(a); }
      assert Elements(b[1..]) == Elements(b) - {b[0]} by { TailElements(b); }
      SortedUnique(a[1..], b[1..]);
      assert a == [a[0]] + a[1..] && b == [b[0]] + b[1..];
    }
  }

  lemma NoElements<T>(s: seq<T>)
    ensures Elements(s) == {} <==> s == []
  {
    if s != [] {
      assert s[0] in Elements(s);
    }
  }

  lemma TailElements<T>(s: seq<T>)
    requires s != [] && Distinct(s)
    ensures Elements(s[1..]) == Elements(s) - {s[0]}
  {
    assert s == [s[0]] + s[1..];
    forall x ensures x in s[1..] <==> x in s && x != s[0] {
      if x in s && x != s[0] {
        var i :| 0 <= i < |s| && s[i] == x;
        assert s[1..][i - 1] == x;
      }
      if x in s[1..] {
        var i :| 0 <= i < |s[1..]| && s[1..][i] == x;
        assert s[i + 1] == x;
      }
    }
  }

  /** The library sort of a list of byte strings: a sorted rearrangement of its input. */
  method SortBytes(s: seq<Bytes>) returns (r: seq<Bytes>)
    ensures Sorted(r)
    ensures multiset(r) == multiset(s)
  {
    r := [];
    for i := 0 to |s|
      invariant Sorted(r)
      invariant multiset(r) == multiset(s[..i])
    {
      assert s[..i + 1] == s[..i] + [s[i]];
      r := InsertSorted(r, s[i]);
    }
    assert s[..|s|] == s;
  }

  method InsertSorted(s: seq<Bytes>, x: Bytes) returns (r: seq<Bytes>)
    requires Sorted(s)
    ensures Sorted(r)
    ensures multiset(r) == multiset(s) + multiset{x}
  {
    hide Sorted;
    var k := 0;
    while k < |s| && LexLe(s[k], x)
      invariant 0 <= k <= |s|
      invariant forall i :: 0 <= i < k ==> LexLe(s[i], x)
    {
      k := k + 1;
    }
    r := s[..k] + [x] + s[k..];
    assert s == s[..k] + s[k..];
    InsertedSorted(s, k, x);
  }

  lemma InsertedSorted(s: seq<Bytes>, k: nat, x: Bytes)
    requires Sorted(s) && k <= |s| && (forall i :: 0 <= i < k ==> LexLe(s[i], x)) && (k < |s| ==> !LexLe(s[k], x))
    ensures Sorted(s[..k] + [x] + s[k..])
  {
    forall j | k <= j < |s| ensures LexLe(x, s[j]) {
      LexTotal(s[k], x);
      if j > k { LexTransitive(x, s[k], s[j]); }
    }
    hide LexLe;
  }

  method SortHashes(found: seq<Hash>) returns (hashes: seq<Hash>)
    requires Distinct(found)
    ensures Sorted(hashes) && Distinct(hashes) && forall h :: h in hashes <==> h in found
    ensures multiset(hashes) == multiset(found)
  {
    var sorted := SortBytes(found);
    forall i | 0 <= i < |sorted|
      ensures sorted[i] in found
    {
      assert sorted[i] in multiset(sorted);
    }
    forall h | h in found
      ensures h in sorted
    {
      assert h in multiset(found);
    }
    DistinctPermutation(found, sorted);
    hashes := sorted;
    SameMultiset(found, hashes);
  }

  /** A set as a sorted list, however it is walked. */
  method SortedList(hashes: set<Hash>) returns (sorted: seq<Hash>)
    ensures Sorted(sorted) && Distinct(sorted) && Elements(sorted) == hashes
  {
    var walk: seq<Hash> := [];
    var todo := hashes;
    while todo != {}
      invariant todo <= hashes && Distinct(walk) && forall h :: h in walk <==> h in hashes && h !in todo
      decreases todo
    {
      var h: Hash :| h in todo;
      todo := todo - {h};
      walk := walk + [h];
    }
    sorted := SortHashes(walk);
  }

  lemma SameMultiset(a: seq<Hash>, b: seq<Hash>)
    requires Distinct(a) && Distinct(b) && forall h :: h in a <==> h in b
    ensures multiset(a) == multiset(b)
  {
    forall h: Hash
      ensures multiset(a)[h] == multiset(b)[h]
    {
      DistinctOnce(a, h);
      DistinctOnce(b, h);
      assert h in a <==> h in multiset(a);
      assert h in b <==> h in multiset(b);
    }
  }

  lemma DistinctPermutation(a: seq<Bytes>, b: seq<Bytes>)
    requires Distinct(a) && multiset(a) == multiset(b)
    ensures Distinct(b)
  {
    forall i, j | 0 <= i < j < |b|
      ensures b[i] != b[j]
    {
      DistinctOnce(a, b[i]);
      assert b == b[..i] + [b[i]] + b[i + 1..j] + [b[j]] + b[j + 1..];
    }
  }

  lemma {:induction false} DistinctOnce<T>(a: seq<T>, x: T)
    requires Distinct(a)
    ensures multiset(a)[x] <= 1
  {
    if a != [] {
      var last := |a| - 1;
      DistinctOnce(a[..last], x);
      assert a == a[..last] + [a[last]];
      assert a[last] !in a[..last];
    }
  }

  // ---------- positioned reads ----------

  /** Reading exactly `len` bytes at `offset`; nothing when the file ends first. An empty read never fails. */
  function ReadAt(file: Bytes, offset: nat, len: nat): Option<Bytes> {
    if len == 0 then Some([])
    else if offset + len <= |file| then Some(file[offset..offset + len])
    else None
  }

  /** The read loop over short reads: every read returns at least one byte until the file ends. */
  method ReadExactAt(file: Bytes, offset: nat, len: nat) returns (r: Option<Bytes>)
    ensures r == ReadAt(file, offset, len)
  {
    var buf: Bytes := [];
    while |buf| < len
      invariant |buf| <= len
      invariant buf != [] ==> offset + |buf| <= |file|
      invariant offset + |buf| <= |file| ==> buf == file[offset..offset + |buf|]
    {
      var at := offset + |buf|;
      if at >= |file| { return None; }
      var n: nat :| 1 <= n <= len - |buf| && at + n <= |file|;
      buf := buf + file[at..at + n];
    }
    r := Some(buf);
  }

  // ---------- quotient and remainder ----------

  lemma MulAtLeast(n: nat, k: nat)
    requires k >= 1
    ensures n * k >= n
  {
    MulSplit(n, k - 1, 1);
  }

  lemma MulSplit(n: nat, a: nat, b: nat)
    ensures n * (a + b) == n * a + n * b
  {
  }

  lemma DivModUnique(n: nat, a: nat, r: nat, b: nat, s: nat)
    requires r < n && s < n && n * a + r == n * b + s
    ensures a == b && r == s
  {
    if a < b {
      MulSplit(n, a, b - a);
      MulAtLeast(n, b - a);
    } else if b < a {
      MulSplit(n, b, a - b);
      MulAtLeast(n, a - b);
    }
  }

  lemma NextDivMod(k: nat, n: nat)
    requires n > 0
    ensures (k + 1) / n == k / n + (if k % n == n - 1 then 1 else 0)
    ensures (k + 1) % n == if k % n == n - 1 then 0 else k % n + 1
  {
    var q, r, q', r' := k / n, k % n, (k + 1) / n, (k + 1) % n;
    assert k == n * q + r && k + 1 == n * q' + r';
    if r == n - 1 {
      MulSplit(n, q, 1);
      DivModUnique(n, q', r', q + 1, 0);
    } else {
      DivModUnique(n, q', r', q, r + 1);
    }
  }
}
