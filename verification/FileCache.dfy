/** cert/cache.go: the certificate cache, its operations, and Load running among other threads. */
module FileCache {
  import opened Prelude
  import opened Certificates

  // ---------------------------------------------------------------- files that change

  /** What a path names: nothing that can be opened, or a file with a modification time whose contents may be
      unreadable. */
  datatype Version = Missing(error: FileError) | Present(modTime: int, contents: Result<seq<Block>, FileError>)

  /** LoadCertificate on one version, with no cache. */
  function LoadVersion(lib: Library, v: Version): (r: LoadResult)
    ensures r.Ok? ==> v.Present? && r.value.leaf.Some?
  {
    match v
    case Missing(e) => Err(FileFailed(e))
    case Present(_, Err(e)) => Err(FileFailed(e))
    case Present(_, Ok(blocks)) => LoadBlocks(lib, blocks)
  }

  type LoadResult = Result<Certificate, CertError>

  /** Any way of loading versions that fails as stat does on missing files, and succeeds only with the leaf parsed. */
  type Loader = load: Version -> LoadResult
    | forall v: Version ::
        if v.Missing? then load(v) == Err(FileFailed(v.error)) else load(v).Ok? ==> load(v).value.leaf.Some?
    witness (v: Version) => if v.Missing? then Err(FileFailed(v.error)) else Err(NoKey)

  /** The way LoadCertificate does it. */
  function FileLoader(lib: Library): Loader {
    v => LoadVersion(lib, v)
  }

  /** Every version each path has had so far, the current one last. */
  type Files = map<string, seq<Version>>

  type History = h: seq<Version> | |h| > 0 witness [Missing(NotExist)]

  function HistoryOf(files: Files, filename: string): History {
    if filename in files && |files[filename]| > 0 then files[filename] else [Missing(NotExist)]
  }

  function Latest(h: History): nat {
    |h| - 1
  }

  function Current(files: Files, filename: string): Version {
    HistoryOf(files, filename)[Latest(HistoryOf(files, filename))]
  }

  // ---------------------------------------------------------------- cache entries

  /** cachedFile: None is a nil certificate. */
  datatype CachedFile = CachedFile(cert: Option<Certificate>, modTime: int)

  type Cache = map<string, CachedFile>

  predicate IsFresh(c: CachedFile, latestModTime: int) {
    c.cert.Some? && c.modTime == latestModTime
  }

  /** Indexing the map: an absent key gives the zero cachedFile. */
  function Lookup(certs: Cache, filename: string): CachedFile {
    if filename in certs then certs[filename] else CachedFile(None, 0)
  }

  /** There is a certificate for the file, of this very time. */
  predicate Holds(certs: Cache, filename: string, modTime: int) {
    filename in certs && certs[filename].cert.Some? && certs[filename].modTime == modTime
  }

  /** Clean reads Leaf.NotAfter of every entry: it panics if there is an entry without a leaf. */
  predicate Cleanable(certs: Cache) {
    forall f :: f in certs ==> certs[f].cert.Some? && certs[f].cert.value.leaf.Some?
  }

  predicate Expired(c: CachedFile, now: int)
    requires c.cert.Some? && c.cert.value.leaf.Some?
  {
    now > c.cert.value.leaf.value.notAfter
  }

  function Cleaned(certs: Cache, now: int): Cache
    requires Cleanable(certs)
  {
    map f | f in certs && !Expired(certs[f], now) :: certs[f]
  }

  // ---------------------------------------------------------------- what entries and results may be

  /** Version v of the file loads to r. */
  predicate Loads(load: Loader, h: History, v: int, r: LoadResult) {
    0 <= v < |h| && load(h[v]) == r
  }

  /** Version s of the file carries this modification time. */
  predicate Stamped(h: History, s: int, modTime: int) {
    0 <= s < |h| && h[s].Present? && h[s].modTime == modTime
  }

  /** The entry carries the time of a version s and holds the certificate of a version v that is no older. */
  ghost predicate GoodEntry(load: Loader, h: History, c: CachedFile) {
    && c.cert.Some?
    && c.cert.value.leaf.Some?
    && exists s, v :: s <= v && Stamped(h, s, c.modTime) && Loads(load, h, v, Ok(c.cert.value))
  }

  ghost predicate GoodCache(load: Loader, files: Files, certs: Cache) {
    forall f :: f in certs ==> GoodEntry(load, HistoryOf(files, f), certs[f])
  }

  /** A certificate of an older version v may be returned only if a version s <= v had the time stat reported. */
  ghost predicate Stale(load: Loader, h: History, first: nat, r: LoadResult)
    requires first < |h|
  {
    && r.Ok?
    && h[first].Present?
    && exists s, v :: s <= v < first && Stamped(h, s, h[first].modTime) && Loads(load, h, v, r)
  }

  ghost predicate Fresh(load: Loader, h: History, first: nat, last: nat, r: LoadResult) {
    exists v :: first <= v <= last && Loads(load, h, v, r)
  }

  /** All a Load whose stat saw version first and which returned at version last can give. */
  ghost predicate Explained(load: Loader, h: History, first: nat, last: nat, r: LoadResult) {
    first <= last < |h| && (Fresh(load, h, first, last, r) || Stale(load, h, first, r))
  }

  /** A loaded certificate has its leaf. */
  lemma LoadedHasLeaf(load: Loader, h: History, v: int, cert: Certificate)
    requires Loads(load, h, v, Ok(cert))
    ensures cert.leaf.Some? && h[v].Present?
  {
  }

  lemma EntryGrows(load: Loader, h: History, h': History, c: CachedFile)
    requires GoodEntry(load, h, c) && h <= h'
    ensures GoodEntry(load, h', c)
  {
    var s, v :| s <= v && Stamped(h, s, c.modTime) && Loads(load, h, v, Ok(c.cert.value));
    assert Stamped(h', s, c.modTime) && Loads(load, h', v, Ok(c.cert.value));
  }

  lemma ExplanationGrows(load: Loader, h: History, h': History, first: nat, last: nat, r: LoadResult)
    requires Explained(load, h, first, last, r) && h <= h'
    ensures Explained(load, h', first, last, r)
  {
    if Fresh(load, h, first, last, r) {
      var v :| first <= v <= last && Loads(load, h, v, r);
      assert Loads(load, h', v, r);
    } else {
      var s, v :| s <= v < first && Stamped(h, s, h[first].modTime) && Loads(load, h, v, r);
      assert Stamped(h', s, h'[first].modTime) && Loads(load, h', v, r);
    }
  }

  /** A hit: the entry's time is the one stat reported when version first was current. */
  lemma HitIsExplained(load: Loader, h: History, first: nat, c: CachedFile)
    requires first < |h| && h[first].Present?
    requires GoodEntry(load, h, c) && IsFresh(c, h[first].modTime)
    ensures Explained(load, h, first, Latest(h), Ok(c.cert.value))
  {
    var s, v :| s <= v && Stamped(h, s, c.modTime) && Loads(load, h, v, Ok(c.cert.value));
  }

  /** Storing what version read holds under the time of an earlier version keeps the cache good. */
  lemma AddIsSafe(load: Loader, files: Files, certs: Cache, f: string, cert: Certificate, first: nat, read: nat)
    requires GoodCache(load, files, certs)
    requires first <= read && first < |HistoryOf(files, f)| && HistoryOf(files, f)[first].Present?
    requires Loads(load, HistoryOf(files, f), read, Ok(cert))
    ensures GoodCache(load, files, certs[f := CachedFile(Some(cert), HistoryOf(files, f)[first].modTime)])
  {
    var h := HistoryOf(files, f);
    LoadedHasLeaf(load, h, read, cert);
    assert Stamped(h, first, h[first].modTime);
  }

  // ---------------------------------------------------------------- the cache object

  class FileSystem {
    var files: Files

    constructor ()
      ensures files == map[]
    {
      files := map[];
    }
  }

  /** The state that several threads share. */
  datatype World = World(files: Files, certs: Cache)

  /** What a thread may rely on while others run: files only gain versions, and entries stay good. */
  ghost predicate Rely(load: Loader, before: World, after: World) {
    && (forall f :: HistoryOf(before.files, f) <= HistoryOf(after.files, f))
    && GoodCache(load, after.files, after.certs)
  }

  lemma RelyTransitive(load: Loader, a: World, b: World, c: World)
    requires Rely(load, a, b) && Rely(load, b, c)
    ensures Rely(load, a, c)
  {
    forall f
      ensures HistoryOf(a.files, f) <= HistoryOf(c.files, f)
    {
      assert HistoryOf(a.files, f) <= HistoryOf(b.files, f);
    }
  }

  class FileCache {
    var certs: Cache

    constructor ()
      ensures certs == map[]
    {
      certs := map[];
    }

    method Get(filename: string) returns (c: CachedFile)
      ensures c == Lookup(certs, filename)
    {
      if filename in certs {
        c := certs[filename];
      } else {
        c := CachedFile(None, 0);
      }
    }

    method Add(filename: string, cert: CachedFile)
      modifies this
      ensures certs == old(certs)[filename := cert]
    {
      certs := certs[filename := cert];
    }

    /** Deletes exactly the expired entries. */
    method Clean(now: int)
      requires Cleanable(certs)
      modifies this
      ensures certs == Cleaned(old(certs), now)
      ensures forall f :: f in certs <==> f in old(certs) && now <= old(certs)[f].cert.value.leaf.value.notAfter
      ensures forall f :: f in certs ==> certs[f] == old(certs)[f]
    {
      var pending := certs.Keys;
      while pending != {}
        invariant pending <= certs.Keys <= old(certs).Keys
        invariant forall f :: f in certs ==> certs[f] == old(certs)[f]
        invariant forall f :: f in old(certs) && f !in pending ==> (f in certs <==> !Expired(old(certs)[f], now))
        decreases |pending|
      {
        var filename :| filename in pending;
        pending := pending - {filename};
        if now > certs[filename].cert.value.leaf.value.notAfter {
          certs := map f | f in certs && f != filename :: certs[f];
        }
      }
    }

    /** Other threads run, and leave the shared state as next describes. */
    method Yield(fs: FileSystem, next: World)
      modifies this, fs
      ensures fs.files == next.files && certs == next.certs
    {
      fs.files, certs := next.files, next.certs;
    }

    /** The second half of Load, after a miss: read and parse the file, then store what it held. */
    method Reload(lib: Library, fs: FileSystem, filename: string, modTime: int, afterRead: World, ghost first: nat)
      returns (r: LoadResult)
      requires first < |HistoryOf(fs.files, filename)| && Stamped(HistoryOf(fs.files, filename), first, modTime)
      requires Rely(FileLoader(lib), World(fs.files, certs), afterRead)
      modifies this, fs
      ensures fs.files == afterRead.files && GoodCache(FileLoader(lib), fs.files, certs)
      ensures r == LoadVersion(lib, Current(old(fs.files), filename))
      ensures var h := HistoryOf(fs.files, filename);
              Fresh(FileLoader(lib), h, Latest(HistoryOf(old(fs.files), filename)), Latest(h), r)
      ensures certs == if r.Ok? then afterRead.certs[filename := CachedFile(Some(r.value), modTime)]
                       else afterRead.certs
    {
      ghost var load := FileLoader(lib);
      ghost var read, h := Latest(HistoryOf(fs.files, filename)), HistoryOf(afterRead.files, filename);
      assert HistoryOf(fs.files, filename) <= h;
      var current := Current(fs.files, filename);
      r := LoadCertificate(lib, if current.Missing? then Err(current.error) else current.contents);
      assert r == load(current);
      Yield(fs, afterRead);
      assert Loads(load, h, read, r);
      if r.Ok? {
        AddIsSafe(load, afterRead.files, afterRead.certs, filename, r.value, first, read);
        Add(filename, CachedFile(Some(r.value), modTime));
      }
    }

    /** Load, with other threads running after the stat, after the lookup and after the file is read. */
    method Load(lib: Library, fs: FileSystem, filename: string, afterStat: World, afterGet: World, afterRead: World)
      returns (r: LoadResult, ghost last: nat)
      requires Rely(FileLoader(lib), World(fs.files, certs), afterStat)
      requires Rely(FileLoader(lib), afterStat, afterGet) && Rely(FileLoader(lib), afterGet, afterRead)
      modifies this, fs
      ensures Rely(FileLoader(lib), old(World(fs.files, certs)), World(fs.files, certs))
      ensures last == Latest(HistoryOf(fs.files, filename))
      ensures Explained(FileLoader(lib), HistoryOf(fs.files, filename),
                        Latest(HistoryOf(old(fs.files), filename)), last, r)
      ensures var stat := Current(old(fs.files), filename);
              if stat.Missing? then r == Err(FileFailed(stat.error)) && World(fs.files, certs) == afterStat
              else if Holds(afterStat.certs, filename, stat.modTime) then
                r == Ok(afterStat.certs[filename].cert.value) && World(fs.files, certs) == afterStat
              else
                r == LoadVersion(lib, Current(afterGet.files, filename)) && fs.files == afterRead.files
      ensures World(fs.files, certs) == afterStat
              || var stat := Current(old(fs.files), filename);
                 && stat.Present?
                 && fs.files == afterRead.files
                 && certs == if r.Ok? then afterRead.certs[filename := CachedFile(Some(r.value), stat.modTime)]
                             else afterRead.certs
    {
      RelyTransitive(FileLoader(lib), World(fs.files, certs), afterStat, afterGet);
      RelyTransitive(FileLoader(lib), World(fs.files, certs), afterGet, afterRead);
      ghost var h0, h1 := HistoryOf(fs.files, filename), HistoryOf(afterStat.files, filename);
      assert h0 <= h1 <= HistoryOf(afterGet.files, filename);
      var fileInfo := Current(fs.files, filename);
      Yield(fs, afterStat);
      if fileInfo.Missing? {
        assert Loads(FileLoader(lib), h1, Latest(h0), Err(FileFailed(fileInfo.error)));
        return Err(FileFailed(fileInfo.error)), Latest(h1);
      }
      var modTime := fileInfo.modTime;
      var cached := Get(filename);
      if IsFresh(cached, modTime) {
        HitIsExplained(FileLoader(lib), h1, Latest(h0), cached);
        return Ok(cached.cert.value), Latest(h1);
      }
      Yield(fs, afterGet);
      r := Reload(lib, fs, filename, modTime, afterRead, Latest(h0));
      last := Latest(HistoryOf(fs.files, filename));
    }
  }
}
