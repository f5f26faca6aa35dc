/** A cafe's update from start to report: plan, download, merge, save the manifest, report. */
module CafeAgent {
  import opened Common
  import opened Manifest
  import opened ChunkMap
  import opened UpdatePlan
  import opened Merge
  import opened MergeTheorems
  import opened CafeUpdate
  import opened GameDir
  import opened CafeStore
  import opened FetchServe
  import opened DownloadMissing

  /** The files of the version on disk; none before the first, an error when its manifest cannot be read. */
  function OldFiles(digest: Digest, s: Saved): Option<seq<FileEntry>> {
    match CurrentManifest(s)
    case NoVersion => Some([])
    case Unreadable => None
    case Manifest(bytes) =>
      match Decode(digest, bytes)
      case Ok(x) => Some(x.files)
      case Err(_) => None
  }

  method ReadOldFiles(digest: Digest, s: Saved) returns (r: Option<seq<FileEntry>>)
    ensures r == OldFiles(digest, s)
  {
    hide Decode;
    match CurrentManifest(s) {
      case NoVersion => r := Some([]);
      case Unreadable => r := None;
      case Manifest(bytes) =>
        var x := DecodeManifest(digest, bytes);
        r := if x.Ok? then Some(x.value.files) else None;
    }
  }

  /**
   * No marker stands for an empty version; a garbled one, a missing or a damaged manifest is an error. A saved manifest
   * is the old version of the next update.
   */
  lemma OldFilesCases(digest: Digest, s: Saved, version: nat, manifest: Bytes)
    ensures s.marker == NoMarker ==> OldFiles(digest, s) == Some([])
    ensures s.marker == Garbled ==> OldFiles(digest, s) == None
    ensures s.marker == Version(version) ==>
      OldFiles(digest, s) == if version in s.manifests && Decode(digest, s.manifests[version]).Ok?
                             then Some(Decode(digest, s.manifests[version]).value.files) else None
    ensures Decode(digest, manifest).Ok? ==>
      OldFiles(digest, Saved(s.manifests[version := manifest], Version(version)))
      == Some(Decode(digest, manifest).value.files)
  {
    hide Decode;
  }

  // ---------- what a download leaves in the temporary directory ----------

  /** The blocks written one after the other. */
  function Saves(temp: Temp, blocks: seq<Block>): Temp
    decreases |blocks|
  {
    if blocks == [] then temp
    else var last := |blocks| - 1; Saves(temp, blocks[..last])[blocks[last].hash := blocks[last].data]
  }

  lemma {:induction false} SavesKeys(temp: Temp, blocks: seq<Block>, h: Hash)
    ensures h in Saves(temp, blocks) <==> h in temp || h in Hashes(blocks)
    ensures h in Saves(temp, blocks) ==> (h in temp && Saves(temp, blocks)[h] == temp[h])
                                         || exists b :: b in blocks && b.hash == h && b.data == Saves(temp, blocks)[h]
    decreases |blocks|
  {
    if blocks != [] {
      var last := |blocks| - 1;
      SavesKeys(temp, blocks[..last], h);
      assert blocks == blocks[..last] + [blocks[last]];
      HashesAppend(blocks[..last], [blocks[last]]);
    }
  }

  /** The bytes of the temporary blocks do not collide with the authentic ones. */
  ghost predicate NoForeignTemp(digest: Digest, lib: Library, temp: Temp) {
    (forall h :: h in lib ==> digest(lib[h]) == h) &&
    forall h :: h in lib && h in temp ==> NoCollision(digest, {lib[h], temp[h]})
  }

  /** Verified blocks keep the temporary directory authentic. */
  lemma SavedAuthentic(digest: Digest, lib: Library, temp: Temp, blocks: seq<Block>)
    requires TempAuthentic(lib, temp) && Verified(digest, blocks) && NoForeignTemp(digest, lib, Saves(temp, blocks))
    ensures TempAuthentic(lib, Saves(temp, blocks))
  {
    hide Saves;
    forall h | h in Saves(temp, blocks) && h in lib
      ensures Saves(temp, blocks)[h] == lib[h]
    {
      SavesKeys(temp, blocks, h);
    }
  }

  /** A finished download of the download list leaves every block the merge may need. */
  lemma FinishedDownload(u: Update, before: Temp, list: seq<Hash>, blocks: seq<Block>)
    requires u.temp == Saves(before, blocks) && Elements(list) == DownloadSet(u.next, u.prev, before.Keys, u.disk)
    requires forall h :: h in list ==> h in Hashes(blocks)
    ensures Downloaded(u, before.Keys)
  {
    hide Saves;
    hide DownloadSet;
    forall h: Hash | h in before || h in DownloadSet(u.next, u.prev, before.Keys, u.disk)
      ensures h in u.temp
    {
      SavesKeys(before, blocks, h);
      assert h in DownloadSet(u.next, u.prev, before.Keys, u.disk) ==> h in Elements(list);
    }
  }

  lemma SettingWithTemp(digest: Digest, u: Update, temp: Temp)
    requires Setting(digest, u) && TempAuthentic(u.lib, temp)
    ensures Setting(digest, u.(temp := temp))
  {
    hide Realized;
    hide NoTempClash;
  }

  // ---------- the whole update ----------

  /**
   * What an update without failures guarantees: the version is installed if and only if the files it left alone held
   * their content, and then every block of it is served, temporary or not.
   */
  lemma FinishedUpdate(digest: Digest, u: Update, before: Temp, blocks: seq<Block>, list: seq<Hash>, gone: set<Hash>)
    requires Setting(digest, u.(temp := before)) && u.temp == Saves(before, blocks) && Verified(digest, blocks)
    requires NoForeignTemp(digest, u.lib, u.temp) && AllKnown(u.lib, u.next) && NoFalseAccept(digest, u)
    requires Elements(list) == DownloadSet(u.next, u.prev, before.Keys, u.disk) && forall h :: h in list ==>
      h in Hashes(blocks)
    requires MergeFiles(digest, u.disk, u.temp, u.prev, u.next).1.failed == []
    ensures var d := MergeFiles(digest, u.disk, u.temp, u.prev, u.next).0;
            (Installed(u.lib, d, u.next) <==> IdleHold(u)) &&
            (IdleHold(u) ==> AllServed(u.lib, u.temp - gone, d, u.next))
  {
    hide *;
    SavedIsAuthentic(digest, u, before, blocks);
    SettingWithTemp(digest, u.(temp := before), u.temp);
    assert u.(temp := before).(temp := u.temp) == u;
    FinishedDownload(u, before, list, blocks);
    WholeUpdateSucceedsIff(digest, u, before.Keys);
    WholeUpdateInstallsIff(digest, u, before.Keys);
    if IdleHold(u) {
      var d := MergeFiles(digest, u.disk, u.temp, u.prev, u.next).0;
      forall h | h in ChunkSet(u.next)
        ensures h in u.lib && ReadChunk(u.temp - gone, Some(BuildMap(u.next)), d, h) == Found(u.lib[h])
      {
        ReportedBlocksServed(digest, u, before.Keys, gone, h);
      }
      ServedAll(u.lib, u.temp - gone, d, u.next);
    }
  }

  /** With its download list complete an update has no failures exactly when no due entry lost a source. */
  lemma CompleteUpdate(digest: Digest, u: Update, before: Temp, blocks: seq<Block>, list: seq<Hash>)
    requires Setting(digest, u.(temp := before)) && u.temp == Saves(before, blocks) && Verified(digest, blocks)
    requires NoForeignTemp(digest, u.lib, u.temp) && AllKnown(u.lib, u.next) && NoFalseAccept(digest, u)
    requires Elements(list) == DownloadSet(u.next, u.prev, before.Keys, u.disk)
    requires forall h :: h in list ==> h in Hashes(blocks)
    ensures MergeFiles(digest, u.disk, u.temp, u.prev, u.next).1.failed == [] <==> NoLostSource(u)
  {
    hide *;
    SavedIsAuthentic(digest, u, before, blocks);
    SettingWithTemp(digest, u.(temp := before), u.temp);
    assert u.(temp := before).(temp := u.temp) == u;
    FinishedDownload(u, before, list, blocks);
    WholeUpdateSucceedsIff(digest, u, before.Keys);
  }

  /** Every block of the version is served with its authentic bytes. */
  ghost predicate AllServed(lib: Library, temp: Temp, d: Disk, files: seq<FileEntry>) {
    forall h :: h in ChunkSet(files) ==> h in lib && ReadChunk(temp, Some(BuildMap(files)), d, h) == Found(lib[h])
  }

  lemma ServedAll(lib: Library, temp: Temp, d: Disk, files: seq<FileEntry>)
    requires forall h :: h in ChunkSet(files) ==>
      h in lib && ReadChunk(temp, Some(BuildMap(files)), d, h) == Found(lib[h])
    ensures AllServed(lib, temp, d, files)
  {
  }

  lemma SavedIsAuthentic(digest: Digest, u: Update, before: Temp, blocks: seq<Block>)
    requires Setting(digest, u.(temp := before)) && u.temp == Saves(before, blocks) && Verified(digest, blocks)
    requires NoForeignTemp(digest, u.lib, u.temp)
    ensures TempAuthentic(u.lib, u.temp)
  {
    hide Saves;
    hide NoForeignTemp;
    assert TempAuthentic(u.lib, before);
    hide Setting;
    SavedAuthentic(digest, u.lib, before, blocks);
  }

  /** The temporary directory grew by downloads of `wanted` alone; `done` when all of them are there. */
  ghost predicate Grown(before: Temp, after: Temp, wanted: set<Hash>) {
    (forall h :: h in before && h !in wanted ==> h in after && after[h] == before[h]) &&
    before.Keys <= after.Keys <= before.Keys + wanted
  }

  lemma DownloadGrows(before: Temp, list: seq<Hash>, blocks: seq<Block>)
    requires forall h :: h in Hashes(blocks) ==> h in list
    ensures Grown(before, Saves(before, blocks), Elements(list))
    ensures (forall h :: h in list ==> h in Hashes(blocks)) ==> Elements(list) <= Saves(before, blocks).Keys
  {
    hide Saves;
    hide Hashes;
    var after := Saves(before, blocks);
    forall h: Hash
      ensures h in after <==> h in before || h in Hashes(blocks)
      ensures h in before && h !in list ==> h in after && after[h] == before[h]
    {
      SavesKeys(before, blocks, h);
      if h in before && h !in list { NotSaved(blocks, h); }
    }
  }

  lemma NotSaved(blocks: seq<Block>, h: Hash)
    requires h !in Hashes(blocks)
    ensures forall b :: b in blocks ==> b.hash != h
  {
    forall b | b in blocks
      ensures b.hash != h
    {
      var i :| 0 <= i < |blocks| && blocks[i] == b;
      assert Hashes(blocks)[i] in Hashes(blocks);
    }
  }

  /** What an update asks the peers for. */
  ghost function Request(digest: Digest, saved: Saved, manifest: Bytes, temp: Temp, disk: Disk): Option<set<Hash>> {
    if Decode(digest, manifest).Err? || OldFiles(digest, saved).None? then None
    else Some(DownloadSet(Decode(digest, manifest).value.files, OldFiles(digest, saved).value, temp.Keys, disk))
  }

  lemma RequestIs(digest: Digest, saved: Saved, manifest: Bytes, temp: Temp, disk: Disk)
    ensures Request(digest, saved, manifest, temp, disk)
         == if Decode(digest, manifest).Err? || OldFiles(digest, saved).None? then None
            else Some(DownloadSet(Decode(digest, manifest).value.files, OldFiles(digest, saved).value, temp.Keys, disk))
  {
  }

  /**
   * One cafe update. Manifest and report come only after a merge without failures; a run that stops earlier leaves the
   * saved version as it was. Only blocks of the download list ever enter the temporary directory, and a run that
   * reports has them all there. When it reports, whatever I/O failed on the way, and the hashes of the bytes in play do
   * not collide, the disk holds the new version exactly when the files the merge left alone held their content, and
   * then every reported block is served with its authentic bytes. When both manifests can be read, the peers bring the
   * list and no I/O fails, the run reports if and only if the merge has no failures, that is, if no due entry lost a
   * source.
   */
  method RunCafe(cafe: CafeStore, version: nat, manifest: Bytes, query: nat -> Query, peers: nat -> Peers,
      origin: Option<Source>, now: nat, faulty: bool, ghost lib: Library)
    returns (held: Option<seq<Hash>>, ghost prev: seq<FileEntry>)
    requires cafe.Valid()
    modifies cafe, cafe.dir
    ensures cafe.Valid() && (held.Some? ==> OldFiles(cafe.digest, old(cafe.saved)) == Some(prev))
    ensures held.None? ==> cafe.saved == old(cafe.saved) && cafe.current == old(cafe.current)
    ensures held.Some? ==> Decode(cafe.digest, manifest).Ok?
                           && cafe.saved == Saved(old(cafe.saved).manifests[version := manifest], Version(version))
    ensures held.Some? ==> var next := Decode(cafe.digest, manifest).value.files;
                           Sorted(held.value) && Distinct(held.value) && Elements(held.value) == ChunkSet(next)
                           && cafe.current == Some(BuildMap(next))
    ensures held.Some? ==>
      var next := Decode(cafe.digest, manifest).value.files;
      var u := Update(lib, old(cafe.dir.files), cafe.temp, prev, next);
      cafe.dir.files == MergeFiles(cafe.digest, u.disk, u.temp, prev, next).0 &&
      MergeFiles(cafe.digest, u.disk, u.temp, prev, next).1.failed == [] &&
      (Setting(cafe.digest, u.(temp := old(cafe.temp))) && NoForeignTemp(cafe.digest, lib, cafe.temp) &&
       AllKnown(lib, next) && NoFalseAccept(cafe.digest, u) ==>
         (Installed(lib, cafe.dir.files, next) <==> IdleHold(u)) &&
         (IdleHold(u) ==> AllServed(lib, cafe.temp, cafe.dir.files, next)))
    ensures var request := Request(cafe.digest, old(cafe.saved), manifest, old(cafe.temp), old(cafe.dir.files));
            if request.None? then held.None? && cafe.temp == old(cafe.temp) && cafe.dir.files == old(cafe.dir.files)
            else Grown(old(cafe.temp), cafe.temp, request.value) && (held.Some? ==> request.value <= cafe.temp.Keys)
    ensures var request := Request(cafe.digest, old(cafe.saved), manifest, old(cafe.temp), old(cafe.dir.files));
            request.Some? && !faulty && Steady(query, request.value) &&
            PeersSuffice(cafe.digest, query, peers, request.value) ==>
              request.value <= cafe.temp.Keys && OldFiles(cafe.digest, old(cafe.saved)) == Some(prev) &&
              var next := Decode(cafe.digest, manifest).value.files;
              var u := Update(lib, old(cafe.dir.files), cafe.temp, prev, next);
              (held.Some? <==> MergeFiles(cafe.digest, u.disk, u.temp, prev, next).1.failed == []) &&
              (Setting(cafe.digest, u.(temp := old(cafe.temp))) && NoForeignTemp(cafe.digest, lib, cafe.temp) &&
               AllKnown(lib, next) && NoFalseAccept(cafe.digest, u) ==>
                 (held.Some? <==> NoLostSource(u)))
  {
    hide *;
    prev, held := [], None;
    ghost var before := cafe.temp;
    ghost var disk := cafe.dir.files;
    ghost var request := Request(cafe.digest, cafe.saved, manifest, cafe.temp, disk);
    RequestIs(cafe.digest, cafe.saved, manifest, cafe.temp, disk);
    var index := DecodeManifest(cafe.digest, manifest);
    if index.Err? { return; }
    var next := index.value.files;
    var oldFiles := ReadOldFiles(cafe.digest, cafe.saved);
    if oldFiles.None? { return; }
    prev := oldFiles.value;
    var list := DownloadList(next, oldFiles.value, cafe.temp.Keys, cafe.dir.files);
    var r, sunk, _ := Download(cafe.digest, query, peers, list, {}, origin);
    SaveAll(cafe, sunk, now);
    SunkVerified(cafe.digest, list, sunk);
    DownloadGrows(before, list, sunk);
    if r.Error? { return; }
    ghost var u := Update(lib, disk, cafe.temp, prev, next);
    if Setting(cafe.digest, u.(temp := before)) && NoForeignTemp(cafe.digest, lib, cafe.temp) &&
       AllKnown(lib, next) && NoFalseAccept(cafe.digest, u) {
      CompleteUpdate(cafe.digest, u, before, sunk, list);
    }
    var summary, _ := cafe.dir.Merge(cafe.digest, next, oldFiles.value, cafe.temp, faulty);
    if summary.None? || summary.value.failed != [] { return; }
    var ok := cafe.SaveManifest(version, manifest);
    assert cafe.current == Some(BuildMap(next)) by { MapOf(cafe.digest, manifest); }
    var blocks := SortedList(ChunkSet(next));
    held := Some(blocks);
    if Setting(cafe.digest, u.(temp := before)) && NoForeignTemp(cafe.digest, lib, cafe.temp) &&
       AllKnown(lib, next) && NoFalseAccept(cafe.digest, u) {
      FinishedUpdate(cafe.digest, u, before, sunk, list, {});
      assert cafe.temp - {} == cafe.temp;
    }
  }

  /** The sink of a cafe's download. */
  method SaveAll(cafe: CafeStore, blocks: seq<Block>, now: nat)
    requires cafe.Valid()
    modifies cafe`temp, cafe`modified
    ensures cafe.Valid() && cafe.temp == Saves(old(cafe.temp), blocks)
  {
    for i := 0 to |blocks|
      invariant cafe.Valid() && cafe.temp == Saves(old(cafe.temp), blocks[..i])
    {
      assert blocks[..i + 1][..i] == blocks[..i];
      cafe.SaveTemp(blocks[i], now);
    }
    assert blocks[..|blocks|] == blocks;
  }

  lemma SunkVerified(digest: Digest, missing: seq<Hash>, sunk: seq<Block>)
    requires SinkOk(digest, missing, sunk)
    ensures Verified(digest, sunk) && forall h :: h in Hashes(sunk) ==> h in missing
  {
  }
}
