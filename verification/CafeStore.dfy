/** A cafe's block source: temporary blocks first, then offsets into the installed files. */
module CafeStore {
  import opened Common
  import opened Manifest
  import opened ChunkMap
  import opened UpdatePlan
  import opened Merge
  import opened MergeTheorems
  import opened CafeUpdate
  import opened GameDir

  datatype Lookup = Found(bytes: Bytes) | NotFound | ReadError

  function ReadChunk(temp: Temp, current: Option<ChunkMap>, files: Disk, hash: Hash): Lookup {
    if hash in temp then Found(temp[hash])
    else if current.None? || hash !in current.value then NotFound
    else
      var loc := current.value[hash];
      if loc.name !in files then NotFound
      else
        match ReadAt(files[loc.name], loc.offset, loc.len)
        case Some(data) => Found(data)
        case None => ReadError
  }

  predicate Contains(temp: Temp, current: Option<ChunkMap>, files: Disk, hash: Hash) {
    hash in temp || (current.Some? && hash in current.value && current.value[hash].name in files)
  }

  /** The manifest files and the version marker beside them. */
  datatype Saved = Saved(manifests: map<nat, Bytes>, marker: Marker)

  /** The version marker: no file, text that is not a number, or a version. */
  datatype Marker = NoMarker | Garbled | Version(version: nat)

  /** What the version marker leads to. */
  datatype Start = NoVersion | Unreadable | Manifest(bytes: Bytes)

  function CurrentManifest(s: Saved): Start {
    match s.marker
    case NoMarker => NoVersion
    case Garbled => Unreadable
    case Version(v) => if v in s.manifests then Manifest(s.manifests[v]) else Unreadable
  }

  function LoadMap(digest: Digest, manifest: Bytes): Option<ChunkMap> {
    match Decode(digest, manifest)
    case Ok(x) => Some(BuildMap(x.files))
    case Err(_) => None
  }

  lemma MapOf(digest: Digest, manifest: Bytes)
    requires Decode(digest, manifest).Ok?
    ensures LoadMap(digest, manifest) == Some(BuildMap(Decode(digest, manifest).value.files))
  {
    hide Decode;
    hide BuildMap;
  }

  class CafeStore {
    const digest: Digest
    var saved: Saved
    var temp: Temp
    var modified: map<Hash, nat>  // write time of every temporary block
    const dir: GameDir
    var current: Option<ChunkMap>

    ghost predicate Valid()
      reads this
    {
      modified.Keys == temp.Keys
    }

    constructor (digest: Digest, saved: Saved, temp: Temp, modified: map<Hash, nat>, dir: GameDir)
      requires modified.Keys == temp.Keys
      ensures Valid() && this.digest == digest && this.saved == saved && this.temp == temp && this.dir == dir
      ensures this.modified == modified && current == None
    {
      this.digest, this.saved, this.temp, this.modified, this.dir := digest, saved, temp, modified, dir;
      current := None;
    }

    /** A damaged manifest leaves the map as it was. */
    method SetCurrent(manifest: Bytes) returns (ok: bool)
      modifies this`current
      ensures ok <==> Decode(digest, manifest).Ok?
      ensures ok ==> current == LoadMap(digest, manifest)
      ensures !ok ==> current == old(current)
    {
      hide Decode;
      var index := DecodeManifest(digest, manifest);
      if index.Err? { return false; }
      var m := BuildChunkMap(index.value.files);
      current := Some(m);
      ok := true;
    }

    /** Save a version and switch to it: manifest file, version marker, then the map in memory. */
    method SaveManifest(version: nat, manifest: Bytes) returns (ok: bool)
      modifies this`current, this`saved
      ensures ok <==> Decode(digest, manifest).Ok?
      ensures old(Valid()) ==> Valid()
      ensures saved == Saved(old(saved).manifests[version := manifest], Version(version))
      ensures ok ==> current == LoadMap(digest, manifest)
      ensures !ok ==> current == old(current)
    {
      saved := saved.(manifests := saved.manifests[version := manifest]);
      saved := saved.(marker := Version(version));
      ok := SetCurrent(manifest);
    }

    method Read(hash: Hash) returns (r: Lookup)
      ensures r == ReadChunk(temp, current, dir.files, hash)
      ensures hash in temp ==> r == Found(temp[hash])
      ensures r == NotFound <==>
        hash !in temp && (current.None? || hash !in current.value || current.value[hash].name !in dir.files)
      ensures hash !in temp && r.Found? ==>
        var loc := current.value[hash];
        |r.bytes| == loc.len && (loc.len > 0 ==> r.bytes == dir.files[loc.name][loc.offset..][..loc.len])
    {
      if hash in temp { return Found(temp[hash]); }
      if current.None? || hash !in current.value { return NotFound; }
      var loc := current.value[hash];
      if loc.name !in dir.files { return NotFound; }
      var data := ReadExactAt(dir.files[loc.name], loc.offset, loc.len);
      r := if data.Some? then Found(data.value) else ReadError;
    }

    method Has(hash: Hash) returns (found: bool)
      ensures found <==> Contains(temp, current, dir.files, hash)
      ensures found <==> ReadChunk(temp, current, dir.files, hash) != NotFound
    {
      if hash in temp { return true; }
      if current.None? || hash !in current.value { return false; }
      found := current.value[hash].name in dir.files;
    }

    /** A downloaded block becomes a temporary one. */
    method SaveTemp(b: Block, now: nat)
      requires Valid()
      modifies this`temp, this`modified
      ensures Valid() && temp == old(temp)[b.hash := b.data]
    {
      temp, modified := temp[b.hash := b.data], modified[b.hash := now];
    }

    /**
     * Remove the temporary blocks older than `ttl`; a block dated in the future counts as fresh. With `faulty` a block
     * that cannot be dated or removed stops the sweep.
     */
    method CleanupExpired(ttl: nat, now: nat, faulty: bool) returns (removed: Option<nat>)
      requires Valid()
      modifies this`temp, this`modified
      ensures Valid() && (removed.Some? || faulty)
      ensures forall h :: h in temp ==> h in old(temp) && temp[h] == old(temp)[h]
      ensures forall h :: h in old(temp) && now <= old(modified)[h] + ttl ==> h in temp
      ensures removed.Some? ==> removed.value == |old(temp)| - |temp|
                                && forall h :: h in temp ==> now <= old(modified)[h] + ttl
    {
      var count := 0;
      var todo := temp.Keys;
      while todo != {}
        invariant Valid() && todo <= temp.Keys <= old(temp).Keys
        invariant forall h :: h in temp ==> temp[h] == old(temp)[h] && modified[h] == old(modified)[h]
        invariant forall h :: h in old(temp) && now <= old(modified)[h] + ttl ==> h in temp
        invariant forall h :: h in temp && h !in todo ==> now <= old(modified)[h] + ttl
        invariant count == |old(temp)| - |temp|
        decreases todo
      {
        var h: Hash :| h in todo;
        todo := todo - {h};
        var entryFails: bool := *;
        if faulty && entryFails { return None; }
        var age := if now >= modified[h] then now - modified[h] else 0;
        if age > ttl {
          DropSize(temp, h);
          temp, modified := temp - {h}, modified - {h};
          count := count + 1;
        }
      }
      removed := Some(count);
    }
  }

  lemma DropSize<K, V>(m: map<K, V>, k: K)
    requires k in m
    ensures |m - {k}| == |m| - 1
  {
    assert (m - {k}).Keys == m.Keys - {k};
    assert |(m - {k}).Keys| == |m - {k}|;
  }

  /**
   * Opening loads the map of the current version; an unreadable marker, a missing or a damaged manifest is an error.
   */
  method Open(digest: Digest, saved: Saved, temp: Temp, modified: map<Hash, nat>, dir: GameDir)
    returns (r: Option<CafeStore>)
    requires modified.Keys == temp.Keys
    ensures r.Some? <==> match saved.marker
                         case NoMarker => true
                         case Garbled => false
                         case Version(v) => v in saved.manifests && Decode(digest, saved.manifests[v]).Ok?
    ensures r.Some? ==> fresh(r.value) && r.value.Valid() && r.value.digest == digest && r.value.saved == saved
                        && r.value.temp == temp && r.value.dir == dir
    ensures r.Some? ==>
      r.value.current ==
      if saved.marker.Version? then Some(BuildMap(Decode(digest, saved.manifests[saved.marker.version]).value.files))
      else None
  {
    hide Decode;
    hide LoadMap;
    var store := new CafeStore(digest, saved, temp, modified, dir);
    match saved.marker {
      case NoMarker =>
      case Garbled => return None;
      case Version(v) =>
        if v !in saved.manifests { return None; }
        var ok := store.SetCurrent(saved.manifests[v]);
        if ok { MapOf(digest, saved.manifests[v]); }
        if !ok { return None; }
    }
    r := Some(store);
  }

  // ---------- temporary blocks are a transparent cache ----------

  /** With the version installed every block of it is served, with its authentic bytes. */
  lemma ServesVersion(lib: Library, files: seq<FileEntry>, d: Disk, temp: Temp, hash: Hash)
    requires AllKnown(lib, files) && UniqueNames(files) && Installed(lib, d, files) && TempAuthentic(lib, temp)
    requires hash in ChunkSet(files)
    ensures hash in lib
    ensures ReadChunk(temp, Some(BuildMap(files)), d, hash) == Found(lib[hash])
    ensures Contains(temp, Some(BuildMap(files)), d, hash)
  {
    hide BuildMap;
    hide ChunkSet;
    hide Content;
    ChunkSetIsVersion(files, hash);
    BuildMapKeys(files, hash);
    var loc := BuildMap(files)[hash];
    var f := BuildMapPoints(lib, files, hash);
    var k :| 0 <= k < |files| && files[k] == f;
    ReadPoints(lib, f, hash, loc);
  }

  /**
   * Removing any temporary blocks changes the answer for a hash exactly when that hash is not in the installed
   * version and its own block was removed.
   */
  lemma TransparentCache(lib: Library, files: seq<FileEntry>, d: Disk, temp: Temp, gone: set<Hash>, hash: Hash)
    requires AllKnown(lib, files) && UniqueNames(files) && Installed(lib, d, files) && TempAuthentic(lib, temp)
    ensures var m := Some(BuildMap(files));
            (ReadChunk(temp - gone, m, d, hash) == ReadChunk(temp, m, d, hash) &&
             (Contains(temp - gone, m, d, hash) <==> Contains(temp, m, d, hash)))
            <==> hash in ChunkSet(files) || hash !in temp || hash !in gone
  {
    hide BuildMap;
    hide ChunkSet;
    if hash in ChunkSet(files) {
      ServesVersion(lib, files, d, temp, hash);
      ServesVersion(lib, files, d, temp - gone, hash);
    } else {
      ChunkSetIsVersion(files, hash);
      BuildMapKeys(files, hash);
    }
  }

  /** After an update that installs the version every block reported is served, also once its temporary copy expires. */
  lemma ReportedBlocksServed(digest: Digest, u: Update, before: set<Hash>, gone: set<Hash>, hash: Hash)
    requires Setting(digest, u) && Downloaded(u, before) && NoLostSource(u) && AllKnown(u.lib, u.next) && IdleHold(u)
    requires hash in ChunkSet(u.next)
    ensures hash in u.lib
    ensures ReadChunk(u.temp - gone, Some(BuildMap(u.next)), MergeFiles(digest, u.disk, u.temp, u.prev, u.next).0, hash)
         == Found(u.lib[hash])
  {
    hide *;
    WholeUpdateInstallsIff(digest, u, before);
    SettingKnown(digest, u);
    assert TempAuthentic(u.lib, u.temp - gone) by { FewerAuthentic(digest, u, gone); }
    ServesVersion(u.lib, u.next, MergeFiles(digest, u.disk, u.temp, u.prev, u.next).0, u.temp - gone, hash);
  }

  lemma FewerAuthentic(digest: Digest, u: Update, gone: set<Hash>)
    requires Setting(digest, u)
    ensures TempAuthentic(u.lib, u.temp - gone)
  {
  }
}
