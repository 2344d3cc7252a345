/** cert/dir.go: searching a directory for the certificate of a server name. */
module CertDirectory {
  import opened Prelude
  import opened Strings
  import opened Certificates
  import opened FileCache
  import opened CacheRuns
  import opened CacheLinearizability

  datatype KeyTypes = KeyTypes(rsa: bool, ecdsa: bool)

  datatype SearchError = NoServerName | InvalidServerName | NotFound

  predicate IsValidName(serverName: string) {
    serverName != "" && serverName[0] != '.' && '/' !in serverName
  }

  /** The server name with its first label replaced by an underscore. */
  function WildcardName(serverName: string): string {
    var dot := IndexByte(serverName, '.');
    "_" + if dot == -1 then "" else serverName[dot..]
  }

  /** The documented search order. */
  function Candidates(serverName: string, keyTypes: KeyTypes): seq<string> {
    var wildcard := WildcardName(serverName);
    (if keyTypes.ecdsa then [serverName + ".pem.ecdsa", wildcard + ".pem.ecdsa"] else [])
    + (if keyTypes.rsa then [serverName + ".pem.rsa", wildcard + ".pem.rsa"] else [])
    + [serverName + ".pem", wildcard + ".pem"]
  }

  /** The order of the documentation, for a name with this first label: the file of the name itself and then the
      wildcard file, for ECDSA, for RSA, and for both. */
  function DocumentedOrder(first: string, rest: string, keyTypes: KeyTypes): seq<string> {
    var ecdsa := [first + rest + ".pem.ecdsa", "_" + rest + ".pem.ecdsa"];
    var rsa := [first + rest + ".pem.rsa", "_" + rest + ".pem.rsa"];
    var both := [first + rest + ".pem", "_" + rest + ".pem"];
    match keyTypes
    case KeyTypes(true, true) => ecdsa + rsa + both
    case KeyTypes(true, false) => rsa + both
    case KeyTypes(false, true) => ecdsa + both
    case KeyTypes(false, false) => both
  }

  predicate IsFirstLabel(first: string, rest: string) {
    '.' !in first && (rest == "" || rest[0] == '.')
  }

  lemma WildcardOfName(first: string, rest: string)
    requires IsFirstLabel(first, rest)
    ensures WildcardName(first + rest) == "_" + rest
  {
    if rest == "" {
      assert first + rest == first;
    } else {
      FirstSeparator(first, '.', rest[1..]);
      assert first + rest == first + ['.'] + rest[1..];
    }
  }

  lemma CandidatesAsDocumented(first: string, rest: string, keyTypes: KeyTypes)
    requires IsFirstLabel(first, rest)
    ensures Candidates(first + rest, keyTypes) == DocumentedOrder(first, rest, keyTypes)
  {
    WildcardOfName(first, rest);
  }

  predicate IsPlainName(f: string) {
    f != "" && f[0] != '.' && '/' !in f
  }

  lemma PlainWithExtension(name: string, extension: string)
    requires IsPlainName(name) && '/' !in extension
    ensures IsPlainName(name + extension)
  {
  }

  /** Every file tried lies directly in the directory and is not hidden. */
  lemma CandidatesStayInDirectory(serverName: string, keyTypes: KeyTypes, i: nat)
    requires IsValidName(serverName) && i < |Candidates(serverName, keyTypes)|
    ensures IsPlainName(Candidates(serverName, keyTypes)[i])
  {
    assert IsPlainName(WildcardName(serverName));
    PlainWithExtension(serverName, ".pem.ecdsa");
    PlainWithExtension(serverName, ".pem.rsa");
    PlainWithExtension(serverName, ".pem");
    PlainWithExtension(WildcardName(serverName), ".pem.ecdsa");
    PlainWithExtension(WildcardName(serverName), ".pem.rsa");
    PlainWithExtension(WildcardName(serverName), ".pem");
  }

  /** One call of loadCertificate: the file and what loading it gave. */
  datatype Attempt = Attempt(file: string, result: LoadResult)

  /** The attempts follow the search order, all but the last failed, and the last one decides the result. */
  predicate FirstMatch(files: seq<string>, attempts: seq<Attempt>, r: Result<Certificate, SearchError>) {
    && 0 < |attempts| <= |files|
    && (forall i :: 0 <= i < |attempts| ==> attempts[i].file == files[i])
    && (forall i :: 0 <= i < |attempts| - 1 ==> attempts[i].result.Err?)
    && match r
       case Ok(cert) => attempts[|attempts| - 1].result == Ok(cert)
       case Err(e) => e == NotFound && |attempts| == |files| && attempts[|attempts| - 1].result.Err?
  }

  predicate AnsweredBy(load: (nat, string) -> LoadResult, attempts: seq<Attempt>) {
    forall i :: 0 <= i < |attempts| ==> attempts[i].result == load(i, attempts[i].file)
  }

  /** The first candidates were tried in order, and all failed. */
  predicate AllFailed(files: seq<string>, attempts: seq<Attempt>) {
    && |attempts| <= |files|
    && forall i :: 0 <= i < |attempts| ==> attempts[i].file == files[i] && attempts[i].result.Err?
  }

  /** The full paths of files in a directory; join is filepath.Join. */
  function Paths(join: (string, string) -> string, path: string, names: seq<string>): (files: seq<string>)
    ensures |files| == |names|
  {
    seq(|names|, i requires 0 <= i < |names| => join(path, names[i]))
  }

  class Directory {
    const join: (string, string) -> string
    const path: string
    /** What the n-th load gives for each path, straight from the file and from the cache, if there is one: other
        threads may change files and cache between loads. */
    const direct: (nat, string) -> LoadResult
    const cache: Option<(nat, string) -> LoadResult>
    var attempts: seq<Attempt>

    constructor (join: (string, string) -> string, path: string, direct: (nat, string) -> LoadResult,
                 cache: Option<(nat, string) -> LoadResult>)
      ensures attempts == [] && this.join == join && this.path == path
      ensures this.direct == direct && this.cache == cache
    {
      this.join, this.path, this.direct, this.cache := join, path, direct, cache;
      attempts := [];
    }

    /** Where certificates come from: the cache, if there is one. */
    function Source(): (nat, string) -> LoadResult {
      if cache.Some? then cache.value else direct
    }

    /** loadCertificate, of the next candidate. */
    method LoadCandidate(filename: string, ghost names: seq<string>) returns (r: LoadResult)
      requires AllFailed(Paths(join, path, names), attempts)
      requires |attempts| < |names| && filename == names[|attempts|]
      modifies this
      ensures |attempts| == |old(attempts)| + 1
      ensures AnsweredBy(Source(), old(attempts)) ==> AnsweredBy(Source(), attempts)
      ensures if r.Ok? then FirstMatch(Paths(join, path, names), attempts, Ok(r.value))
              else AllFailed(Paths(join, path, names), attempts)
    {
      var fullpath := join(path, filename);
      if cache.Some? {
        r := cache.value(|attempts|, fullpath);
      } else {
        r := direct(|attempts|, fullpath);
      }
      attempts := attempts + [Attempt(fullpath, r)];
    }

    method GetCertificate(serverName: string, keyTypes: KeyTypes) returns (r: Result<Certificate, SearchError>)
      requires attempts == []
      modifies this
      ensures serverName == "" ==> r == Err(NoServerName) && attempts == []
      ensures serverName != "" && (serverName[0] == '.' || '/' in serverName) ==>
                r == Err(InvalidServerName) && attempts == []
      ensures serverName != "" && serverName[0] != '.' && '/' !in serverName ==>
                FirstMatch(Paths(join, path, Candidates(serverName, keyTypes)), attempts, r)
      ensures AnsweredBy(match cache case Some(load) => load case None => direct, attempts)
    {
      if serverName == "" {
        return Err(NoServerName);
      }
      if serverName[0] == '.' || IndexByte(serverName, '/') != -1 {
        return Err(InvalidServerName);
      }
      var serverNameSuffix := "";
      var dot := IndexByte(serverName, '.');
      if dot != -1 {
        serverNameSuffix := serverName[dot..];
      }
      var cert;
      ghost var names := Candidates(serverName, keyTypes);
      if keyTypes.ecdsa {
        cert := LoadCandidate(serverName + ".pem.ecdsa", names);
        if cert.Ok? {
          return Ok(cert.value);
        }
        cert := LoadCandidate("_" + serverNameSuffix + ".pem.ecdsa", names);
        if cert.Ok? {
          return Ok(cert.value);
        }
      }
      if keyTypes.rsa {
        cert := LoadCandidate(serverName + ".pem.rsa", names);
        if cert.Ok? {
          return Ok(cert.value);
        }
        cert := LoadCandidate("_" + serverNameSuffix + ".pem.rsa", names);
        if cert.Ok? {
          return Ok(cert.value);
        }
      }
      cert := LoadCandidate(serverName + ".pem", names);
      if cert.Ok? {
        return Ok(cert.value);
      }
      cert := LoadCandidate("_" + serverNameSuffix + ".pem", names);
      if cert.Ok? {
        return Ok(cert.value);
      }
      return Err(NotFound);
    }
  }

  // ---------------------------------------------------------------- the search while files change

  /** calls[i] is the Load of run es that made attempt i; each begins after the one before it returned. */
  ghost predicate MadeBy(load: Loader, es: seq<Event>, attempts: seq<Attempt>, calls: seq<nat>) {
    var st := Run(load, es);
    && |calls| == |attempts|
    && (forall i :: 0 <= i < |calls| ==>
          && calls[i] < |st.calls|
          && st.calls[calls[i]].phase == Returned(attempts[i].result)
          && st.calls[calls[i]].file == attempts[i].file)
    && (forall i, j :: 0 <= i < j < |calls| ==> st.calls[calls[i]].end.instant <= st.calls[calls[j]].stat.instant)
  }

  /** t lies between the stat and the return of the call, and an uncached load at t would have given the result. */
  ghost predicate Witnesses(load: Loader, es: seq<Event>, call: Call, t: nat) {
    && call.phase.Returned?
    && call.stat.instant <= t <= call.end.instant
    && WouldLoad(load, es, t, call.file, call.phase.result)
  }

  /** With the shared cache and files changing underneath: there are successive instants, one for each attempt,
      at which that file by itself would have given that result; so each earlier candidate failed at its instant. */
  lemma SearchIsLinearizable(load: Loader, es: seq<Event>, attempts: seq<Attempt>, calls: seq<nat>)
    returns (times: seq<nat>)
    requires MadeBy(load, es, attempts, calls)
    requires forall f :: NoRecurrence(load, HistoryOf(Run(load, es).files, f))
    ensures |times| == |attempts|
    ensures forall i :: 0 <= i < |times| ==> WouldLoad(load, es, times[i], attempts[i].file, attempts[i].result)
    ensures forall i :: 0 <= i < |times| ==>
              Run(load, es).calls[calls[i]].stat.instant <= times[i] <= Run(load, es).calls[calls[i]].end.instant
    ensures forall i, j :: 0 <= i < j < |times| ==> times[i] <= times[j]
  {
    var made := Run(load, es).calls;
    forall i | 0 <= i < |attempts|
      ensures exists t: nat :: Witnesses(load, es, made[calls[i]], t)
    {
      LoadIsLinearizable(load, es, calls[i]);
      var call := made[calls[i]];
      var t: nat :| call.stat.instant <= t <= call.end.instant && WouldLoad(load, es, t, call.file, call.phase.result);
      assert Witnesses(load, es, call, t);
    }
    times := seq(|attempts|, i requires 0 <= i < |attempts| => var t: nat :| Witnesses(load, es, made[calls[i]], t); t);
    assert forall i :: 0 <= i < |times| ==> Witnesses(load, es, made[calls[i]], times[i]);
  }

  /** A search with the cache, while files and cache change underneath: the candidate that was found held the
      certificate returned at some instant of its own load, and each one before it in the search order failed at an
      earlier instant, of its own load; when nothing was found, all of them failed like that. */
  lemma SearchFindsFirst(load: Loader, es: seq<Event>, join: (string, string) -> string, path: string,
                         serverName: string, keyTypes: KeyTypes, attempts: seq<Attempt>, calls: seq<nat>,
                         r: Result<Certificate, SearchError>)
    returns (times: seq<nat>)
    requires FirstMatch(Paths(join, path, Candidates(serverName, keyTypes)), attempts, r)
    requires MadeBy(load, es, attempts, calls)
    requires forall f :: NoRecurrence(load, HistoryOf(Run(load, es).files, f))
    ensures |times| == |attempts| <= |Candidates(serverName, keyTypes)|
    ensures forall i, j :: 0 <= i < j < |times| ==> times[i] <= times[j]
    ensures forall i :: 0 <= i < |times| ==>
              Run(load, es).calls[calls[i]].stat.instant <= times[i] <= Run(load, es).calls[calls[i]].end.instant
    ensures forall i :: 0 <= i < |times| && (i < |times| - 1 || r.Err?) ==>
              && attempts[i].result.Err?
              && WouldLoad(load, es, times[i], join(path, Candidates(serverName, keyTypes)[i]), attempts[i].result)
    ensures match r
            case Ok(cert) =>
              var last := |times| - 1;
              WouldLoad(load, es, times[last], join(path, Candidates(serverName, keyTypes)[last]), Ok(cert))
            case Err(_) => |times| == |Candidates(serverName, keyTypes)|
  {
    times := SearchIsLinearizable(load, es, attempts, calls);
  }

  /** What GetCertificate does for a name with this first label, file by file: it tries the files of the documented
      order, the first one first, and the next one after each failure; it returns the certificate of the first that
      loads, and not-found after the last. */
  lemma SearchedAsDocumented(join: (string, string) -> string, path: string, first: string, rest: string,
                             keyTypes: KeyTypes, attempts: seq<Attempt>, r: Result<Certificate, SearchError>)
    requires IsFirstLabel(first, rest)
    requires FirstMatch(Paths(join, path, Candidates(first + rest, keyTypes)), attempts, r)
    ensures var order := DocumentedOrder(first, rest, keyTypes);
            && 0 < |attempts| <= |order|
            && (forall i :: 0 <= i < |attempts| ==> attempts[i].file == join(path, order[i]))
            && (forall i :: 0 <= i < |attempts| && i + 1 < |order| ==>
                  (attempts[i].result.Err? <==> i + 1 < |attempts|))
            && match r
               case Ok(cert) => attempts[|attempts| - 1].result == Ok(cert)
               case Err(e) => e == NotFound && |attempts| == |order| && attempts[|order| - 1].result.Err?
  {
    CandidatesAsDocumented(first, rest, keyTypes);
  }
}
