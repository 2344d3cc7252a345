/** unix/listener.go, Listen: publishing a UNIX domain socket by renaming it into place. */
module UnixSocket {
  import opened Prelude

  /** A path as its components; [] is the root directory. */
  type Path = seq<string>

  datatype File = Directory | Socket(inode: nat, mode: nat) | Other(inode: nat)

  type Entries = map<Path, File>

  /** filepath.Dir. */
  function Dir(p: Path): Path {
    if p == [] then [] else p[..|p| - 1]
  }

  predicate IsDirectory(entries: Entries, p: Path) {
    p == [] || (p in entries && entries[p] == Directory)
  }

  predicate IsEmpty(entries: Entries, p: Path) {
    forall q :: q in entries ==> Dir(q) != p
  }

  /** Every entry has a parent directory, and inode numbers from nextInode on are unused. */
  predicate WellFormed(entries: Entries, nextInode: nat, listening: set<nat>) {
    && [] !in entries
    && (forall p :: p in entries ==> IsDirectory(entries, Dir(p)))
    && (forall p :: p in entries && entries[p].Socket? ==> entries[p].inode < nextInode)
    && (forall i :: i in listening ==> i < nextInode)
  }

  lemma StaysWellFormed(entries: Entries, nextInode: nat, listening: set<nat>, path: Path, mode: nat)
    requires WellFormed(entries, nextInode, listening)
    ensures WellFormed(entries, nextInode + 1, listening)
    ensures path != [] && IsDirectory(entries, Dir(path)) && !IsDirectory(entries, path) ==>
              WellFormed(entries[path := Socket(nextInode, mode)], nextInode + 1, listening + {nextInode})
  {
  }

  const TEMP_PREFIX := ".tmp"

  /** The names that os.MkdirTemp tries, each made up of the prefix and something random. */
  function TempName(dir: Path, random: string): Path {
    dir + [TEMP_PREFIX + random]
  }

  /** The temporary directory: the first of these names that is not taken. */
  function FirstFree(entries: Entries, dir: Path, randoms: seq<string>): (r: Option<Path>)
    ensures r.Some? ==>
              r.value !in entries && exists i :: 0 <= i < |randoms| && r.value == TempName(dir, randoms[i])
    ensures r.None? ==> forall i :: 0 <= i < |randoms| ==> TempName(dir, randoms[i]) in entries
  {
    if randoms == [] then None
    else if TempName(dir, randoms[0]) !in entries then Some(TempName(dir, randoms[0]))
    else
      assert forall i :: 1 <= i < |randoms| ==> randoms[i] == randoms[1..][i - 1];
      FirstFree(entries, dir, randoms[1..])
  }

  /** The directory exists, and path is the name found for the temporary directory. */
  predicate BecomesTemp(entries: Entries, path: Path, randoms: seq<string>) {
    IsDirectory(entries, Dir(path)) && FirstFree(entries, Dir(path), randoms) == Some(path)
  }

  /** A caller can tell from the path alone that it is not taken for the temporary directory. */
  lemma OrdinaryNames(entries: Entries, path: Path, randoms: seq<string>)
    requires path != [] && !(".tmp" <= path[|path| - 1])
    ensures !BecomesTemp(entries, path, randoms)
  {
  }

  /** Two snapshots agree on what p names. */
  predicate SameAt(a: Entries, b: Entries, p: Path) {
    if p in a then p in b && a[p] == b[p] else p !in b
  }

  /** The system call that fails, for reasons the file system model does not explain. */
  datatype Fault = NoFault | AtMkdir | AtBind | AtChmod | AtLstat | AtRename

  /** What a snapshot may show at path while Listen runs: what was there before; or, when path is the very name of
      the temporary directory, that directory. */
  predicate NotYet(before: Entries, path: Path, temp: Path, e: Entries) {
    SameAt(before, e, path) || (path == temp && path !in before && path in e && e[path] == Directory)
  }

  predicate Shows(e: Entries, path: Path, f: File) {
    path in e && e[path] == f
  }

  /** A series of snapshots in which path names what it named before, or from one step on the new socket. */
  predicate Atomic(steps: seq<Entries>, before: Entries, path: Path, socket: File) {
    && (forall i :: 0 <= i < |steps| ==> SameAt(before, steps[i], path) || Shows(steps[i], path, socket))
    && (forall i, j :: 0 <= i < j < |steps| && Shows(steps[i], path, socket) ==> Shows(steps[j], path, socket))
  }

  /** The same, but for path naming the temporary directory. */
  predicate Published(steps: seq<Entries>, before: Entries, path: Path, temp: Path, socket: File) {
    && (forall i :: 0 <= i < |steps| ==> NotYet(before, path, temp, steps[i]) || Shows(steps[i], path, socket))
    && (forall i, j :: 0 <= i < j < |steps| && Shows(steps[i], path, socket) ==> Shows(steps[j], path, socket))
  }

  /** The entries while the temporary directory exists, without and with the socket in it. */
  function WithTemp(before: Entries, temp: Path): Entries {
    before[temp := Directory]
  }

  function WithSocket(before: Entries, temp: Path, socket: File): Entries {
    before[temp := Directory][temp + ["socket"] := socket]
  }

  predicate FreshTemp(before: Entries, temp: Path) {
    && temp != [] && temp !in before
    && [] !in before
    && IsDirectory(before, Dir(temp))
    && (forall p :: p in before ==> IsDirectory(before, Dir(p)))
  }

  lemma TempNames(before: Entries, temp: Path, path: Path)
    requires FreshTemp(before, temp) && path != [] && Dir(path) == Dir(temp)
    ensures var tempPath := temp + ["socket"];
            && Dir(tempPath) == temp && tempPath !in before && tempPath != temp && tempPath != path
            && Dir(temp) != temp && Dir(path) != temp
            && forall p :: p in before ==> Dir(p) != temp
  {
    var tempPath := temp + ["socket"];
    assert tempPath[..|temp|] == temp;
    assert |tempPath| == |temp| + 1 && |path| == |temp|;
    forall p | p in before
      ensures Dir(p) != temp
    {
      assert IsDirectory(before, Dir(p));
    }
  }

  lemma SocketTaken(before: Entries, temp: Path, socket: File)
    requires temp + ["socket"] !in before && temp + ["socket"] != temp
    ensures WithSocket(before, temp, socket) - {temp + ["socket"]} == WithTemp(before, temp)
  {
  }

  lemma DirectoriesWithSocket(before: Entries, temp: Path, path: Path, socket: File)
    requires FreshTemp(before, temp) && path != [] && Dir(path) == Dir(temp)
    ensures IsDirectory(WithSocket(before, temp, socket), Dir(path))
    ensures IsDirectory(WithSocket(before, temp, socket), path) <==> IsDirectory(before, path) || path == temp
  {
    TempNames(before, temp, path);
  }

  /** The effect of chmod and rename on the temporary socket. */
  lemma SocketMoves(before: Entries, temp: Path, path: Path, old_: File, new_: File)
    requires FreshTemp(before, temp) && path != [] && Dir(path) == Dir(temp)
    ensures var tempPath := temp + ["socket"];
            && Shows(WithSocket(before, temp, old_), tempPath, old_)
            && WithSocket(before, temp, old_)[tempPath := new_] == WithSocket(before, temp, new_)
            && WithSocket(before, temp, new_) - {tempPath} == WithTemp(before, temp)
            && (WithSocket(before, temp, new_) - {tempPath})[path := new_] == WithTemp(before, temp)[path := new_]
            && IsDirectory(WithSocket(before, temp, new_), Dir(path))
            && (IsDirectory(WithSocket(before, temp, new_), path) <==> IsDirectory(before, path) || path == temp)
  {
    TempNames(before, temp, path);
    SocketTaken(before, temp, new_);
    DirectoriesWithSocket(before, temp, path, new_);
  }

  lemma TempDirectoryRemoved(before: Entries, temp: Path)
    requires temp !in before
    ensures WithTemp(before, temp) - {temp} == before
  {
  }

  lemma RemoveBeside(before: Entries, temp: Path, path: Path, file: File)
    requires temp !in before && path != temp
    ensures WithTemp(before, temp)[path := file] - {temp} == before[path := file]
  {
  }

  lemma TempRemovedAfterwards(before: Entries, temp: Path, path: Path, socket: File)
    requires FreshTemp(before, temp) && path != [] && Dir(path) == Dir(temp) && path != temp
    ensures var placed := WithTemp(before, temp)[path := socket];
            && IsEmpty(placed, temp) && temp in placed && temp + ["socket"] !in placed
            && placed - {temp} == before[path := socket]
  {
    TempNames(before, temp, path);
    RemoveBeside(before, temp, path, socket);
  }

  /** Removing the temporary directory leaves no trace. */
  lemma TempRemoved(before: Entries, temp: Path, path: Path, socket: File)
    requires FreshTemp(before, temp) && path != [] && Dir(path) == Dir(temp)
    ensures IsEmpty(WithTemp(before, temp), temp) && WithTemp(before, temp) - {temp} == before
    ensures path != temp ==>
              var placed := WithTemp(before, temp)[path := socket];
              && IsEmpty(placed, temp) && temp in placed && temp + ["socket"] !in placed
              && placed - {temp} == before[path := socket]
  {
    TempNames(before, temp, path);
    TempDirectoryRemoved(before, temp);
    if path != temp {
      TempRemovedAfterwards(before, temp, path, socket);
    }
  }

  /** A snapshot taken before the rename. */
  ghost predicate IsTemporary(before: Entries, temp: Path, e: Entries) {
    e == before || e == WithTemp(before, temp) || exists s: File :: e == WithSocket(before, temp, s)
  }

  /** A snapshot taken after it. */
  predicate IsPlaced(before: Entries, temp: Path, path: Path, socket: File, e: Entries) {
    e == WithTemp(before, temp)[path := socket] || e == before[path := socket]
  }

  /** The first n snapshots were taken before the rename, the others after it. */
  ghost predicate SwitchesAt(steps: seq<Entries>, n: nat, before: Entries, temp: Path, path: Path, socket: File) {
    && n <= |steps|
    && (forall i :: 0 <= i < n ==> IsTemporary(before, temp, steps[i]))
    && (forall i :: n <= i < |steps| ==> IsPlaced(before, temp, path, socket, steps[i]))
  }

  lemma Associate<T>(a: seq<T>, b: seq<T>, c: seq<T>)
    ensures (a + b) + c == a + (b + c)
  {
  }

  lemma SwitchConcat(a: seq<Entries>, n: nat, b: seq<Entries>, m: nat,
                     before: Entries, temp: Path, path: Path, socket: File)
    requires SwitchesAt(a, n, before, temp, path, socket) && SwitchesAt(b, m, before, temp, path, socket)
    requires n == |a| || m == 0
    ensures SwitchesAt(a + b, n + m, before, temp, path, socket)
  {
  }

  lemma SwitchIsPublication(steps: seq<Entries>, n: nat, before: Entries, temp: Path, path: Path, socket: File)
    requires FreshTemp(before, temp) && path != [] && Dir(path) == Dir(temp)
    requires SwitchesAt(steps, n, before, temp, path, socket)
    requires !Shows(before, path, socket) && socket.Socket? && (path == temp ==> n == |steps|)
    ensures Published(steps, before, path, temp, socket)
  {
    TempNames(before, temp, path);
    forall i | 0 <= i < |steps|
      ensures if i < n then NotYet(before, path, temp, steps[i]) && !Shows(steps[i], path, socket)
              else Shows(steps[i], path, socket)
    {
      if i < n {
        assert IsTemporary(before, temp, steps[i]);
      } else {
        assert IsPlaced(before, temp, path, socket, steps[i]);
      }
    }
  }

  /** The log has grown by a publication. */
  predicate Recorded(log: seq<Entries>, longer: seq<Entries>, before: Entries, path: Path, temp: Path, socket: File) {
    log <= longer && Published(longer[|log|..], before, path, temp, socket)
  }

  lemma PublishedElsewhere(steps: seq<Entries>, before: Entries, path: Path, temp: Path, socket: File)
    requires Published(steps, before, path, temp, socket) && (path != temp || path in before)
    ensures Atomic(steps, before, path, socket)
  {
    assert forall i :: 0 <= i < |steps| ==> NotYet(before, path, temp, steps[i]) || Shows(steps[i], path, socket);
  }

  /** With path naming the temporary directory, the first snapshot already shows it there. */
  lemma NotAtomic(log: seq<Entries>, steps: seq<Entries>, before: Entries, path: Path, final: Entries, socket: File)
    requires path !in before && socket.Socket?
    ensures var longer := log + [WithTemp(before, path)] + steps + [final];
            && log <= longer && |log| < |longer| && Shows(longer[|log|], path, Directory)
            && !Atomic(longer[|log|..], before, path, socket)
  {
    var longer := log + [WithTemp(before, path)] + steps + [final];
    assert longer[|log|..][0] == longer[|log|] == WithTemp(before, path);
  }

  lemma NothingRecorded(log: seq<Entries>, before: Entries, path: Path, temp: Path, socket: File)
    requires !Shows(before, path, socket)
    ensures Recorded(log, log + [before], before, path, temp, socket)
  {
    assert (log + [before])[|log|..] == [before];
  }

  lemma FreshTempName(entries: Entries, nextInode: nat, listening: set<nat>, path: Path, randoms: seq<string>)
    requires WellFormed(entries, nextInode, listening) && path != []
    requires FirstFree(entries, Dir(path), randoms).Some? && IsDirectory(entries, Dir(path))
    ensures var temp := FirstFree(entries, Dir(path), randoms).value;
            Dir(temp) == Dir(path) && FreshTemp(entries, temp)
  {
    var temp := FirstFree(entries, Dir(path), randoms).value;
    assert temp[..|temp| - 1] == Dir(path);
  }

  /** The whole log of a Listen that got its temporary directory. */
  lemma PublicationLogged(log: seq<Entries>, steps: seq<Entries>, n: nat, final: Entries,
                          before: Entries, temp: Path, path: Path, socket: File, placed: bool)
    requires FreshTemp(before, temp) && path != [] && Dir(path) == Dir(temp)
    requires SwitchesAt(steps, n, before, temp, path, socket) && (if placed then path != temp else n == |steps|)
    requires final == if placed then before[path := socket] else before
    requires !Shows(before, path, socket) && socket.Socket?
    ensures Recorded(log, log + [WithTemp(before, temp)] + steps + [final], before, path, temp, socket)
  {
    var first, last := [WithTemp(before, temp)], [final];
    SwitchConcat(first, 1, steps, n, before, temp, path, socket);
    var m := if placed then 0 else 1;
    assert SwitchesAt(last, m, before, temp, path, socket);
    SwitchConcat(first + steps, 1 + n, last, m, before, temp, path, socket);
    SwitchIsPublication(first + steps + last, 1 + n + m, before, temp, path, socket);
    var logged := log + first + steps + last;
    assert logged[|log|..] == first + steps + last;
  }

  class FileSystem {
    var entries: Entries
    var nextInode: nat
    /** The sockets with an open listener, by inode. */
    var listening: set<nat>
    /** What the entries were after each system call. */
    ghost var log: seq<Entries>

    constructor ()
      ensures Valid() && entries == map[] && listening == {} && log == []
    {
      entries, nextInode, listening, log := map[], 0, {}, [];
    }

    ghost predicate Valid()
      reads this
    {
      WellFormed(entries, nextInode, listening)
    }

    /** os.MkdirTemp, with the random names that it tries in turn until one is free. */
    method MkdirTemp(dir: Path, randoms: seq<string>, fail: bool) returns (r: Option<Path>)
      modifies this
      ensures nextInode == old(nextInode) && listening == old(listening) && log == old(log) + [entries]
      ensures r.Some? <==> !fail && IsDirectory(old(entries), dir) && FirstFree(old(entries), dir, randoms).Some?
      ensures entries == if r.Some? then old(entries)[r.value := Directory] else old(entries)
      ensures r.Some? ==> r == FirstFree(old(entries), dir, randoms)
    {
      r := None;
      if !fail && IsDirectory(entries, dir) {
        var try := 0;
        while try < |randoms| && TempName(dir, randoms[try]) in entries
          invariant 0 <= try <= |randoms| && entries == old(entries)
          invariant FirstFree(entries, dir, randoms[try..]) == FirstFree(entries, dir, randoms)
        {
          try := try + 1;
        }
        if try < |randoms| {
          r := Some(TempName(dir, randoms[try]));
          entries := entries[r.value := Directory];
        }
      }
      log := log + [entries];
    }

    /** net.ListenUnix without unlink-on-close: binds a new socket and listens on it. */
    method ListenUnix(p: Path, fail: bool) returns (r: Option<nat>)
      modifies this
      ensures log == old(log) + [entries]
      ensures r.Some? <==> !fail && IsDirectory(old(entries), Dir(p)) && p !in old(entries)
      ensures if r.Some? then
                && r.value == old(nextInode)
                && nextInode == old(nextInode) + 1
                && listening == old(listening) + {r.value}
                && entries == old(entries)[p := Socket(r.value, 0)]
              else
                nextInode == old(nextInode) && listening == old(listening) && entries == old(entries)
    {
      r := None;
      if !fail && IsDirectory(entries, Dir(p)) && p !in entries {
        r := Some(nextInode);
        entries := entries[p := Socket(nextInode, 0)];
        listening := listening + {nextInode};
        nextInode := nextInode + 1;
      }
      log := log + [entries];
    }

    method Chmod(p: Path, mode: nat, fail: bool) returns (ok: bool)
      modifies this
      ensures nextInode == old(nextInode) && listening == old(listening) && log == old(log) + [entries]
      ensures ok <==> !fail && p in old(entries)
      ensures entries == if ok && old(entries)[p].Socket? then old(entries)[p := old(entries)[p].(mode := mode)]
                         else old(entries)
    {
      ok := !fail && p in entries;
      if ok && entries[p].Socket? {
        entries := entries[p := entries[p].(mode := mode)];
      }
      log := log + [entries];
    }

    method Lstat(p: Path, fail: bool) returns (info: Option<File>)
      modifies this
      ensures nextInode == old(nextInode) && listening == old(listening) && log == old(log) + [entries]
      ensures entries == old(entries)
      ensures info == if !fail && p in entries then Some(entries[p]) else None
    {
      info := if !fail && p in entries then Some(entries[p]) else None;
      log := log + [entries];
    }

    /** rename(2) of a file: replaces the target in one step, unless that is a directory. */
    method Rename(from: Path, to: Path, fail: bool) returns (ok: bool)
      modifies this
      ensures nextInode == old(nextInode) && listening == old(listening) && log == old(log) + [entries]
      ensures ok <==> && !fail && from in old(entries)
                      && IsDirectory(old(entries), Dir(to)) && !IsDirectory(old(entries), to)
      ensures entries == if ok then (old(entries) - {from})[to := old(entries)[from]] else old(entries)
    {
      ok := !fail && from in entries && IsDirectory(entries, Dir(to)) && !IsDirectory(entries, to);
      if ok {
        entries := (entries - {from})[to := entries[from]];
      }
      log := log + [entries];
    }

    /** os.Remove, its error ignored: removes a file or an empty directory. */
    method Remove(p: Path)
      modifies this
      ensures nextInode == old(nextInode) && listening == old(listening) && log == old(log) + [entries]
      ensures entries == if p in old(entries) && (old(entries)[p] == Directory ==> IsEmpty(old(entries), p))
                         then old(entries) - {p} else old(entries)
    {
      if p in entries && (entries[p] == Directory ==> IsEmpty(entries, p)) {
        entries := entries - {p};
      }
      log := log + [entries];
    }

    method CloseListener(inode: nat)
      modifies this
      ensures nextInode == old(nextInode) && entries == old(entries) && log == old(log) + [entries]
      ensures listening == old(listening) - {inode}
    {
      listening := listening - {inode};
      log := log + [entries];
    }

    /** The part of Listen that can fail with the socket bound: chmod, lstat, rename. */
    method Place(ghost before: Entries, temp: Path, path: Path, inode: nat, mode: nat, fault: Fault)
      returns (ok: bool, ghost steps: seq<Entries>)
      requires FreshTemp(before, temp) && path != [] && Dir(path) == Dir(temp)
      requires entries == WithSocket(before, temp, Socket(inode, 0))
      modifies this
      ensures nextInode == old(nextInode) && listening == old(listening) && log == old(log) + steps
      ensures ok <==> fault !in {AtChmod, AtLstat, AtRename} && !IsDirectory(before, path) && path != temp
      ensures if ok then entries == WithTemp(before, temp)[path := Socket(inode, mode)]
              else exists m :: entries == WithSocket(before, temp, Socket(inode, m))
      ensures steps != []
      ensures SwitchesAt(steps, if ok then |steps| - 1 else |steps|, before, temp, path, Socket(inode, mode))
    {
      var tempPath := temp + ["socket"];
      SocketMoves(before, temp, path, Socket(inode, 0), Socket(inode, mode));
      ok := Chmod(tempPath, mode, fault == AtChmod);
      steps := [entries];
      if !ok {
        return;
      }
      assert entries == WithSocket(before, temp, Socket(inode, mode));
      var fileInfo := Lstat(tempPath, fault == AtLstat);
      SocketMoves(before, temp, path, Socket(inode, mode), Socket(inode, mode));
      Associate(old(log), steps, [entries]);
      steps := steps + [entries];
      if fileInfo.None? {
        return false, steps;
      }
      ok := Rename(tempPath, path, fault == AtRename);
      Associate(old(log), steps, [entries]);
      steps := steps + [entries];
    }

    /** The deferred calls of Listen once the socket is bound: they close a listener that was not published, and remove
        the socket's temporary entry. */
    method RunDeferred(ghost before: Entries, temp: Path, path: Path, tempListener: Option<nat>, ghost socket: File)
      returns (ghost steps: seq<Entries>)
      requires FreshTemp(before, temp) && path != [] && Dir(path) == Dir(temp)
      requires if tempListener.None? then path != temp && entries == WithTemp(before, temp)[path := socket]
               else exists m :: entries == WithSocket(before, temp, Socket(tempListener.value, m))
      modifies this
      ensures nextInode == old(nextInode) && log == old(log) + steps
      ensures if tempListener.None? then entries == old(entries) && listening == old(listening)
              else entries == WithTemp(before, temp) && listening == old(listening) - {tempListener.value}
      ensures SwitchesAt(steps, if tempListener.None? then 0 else |steps|, before, temp, path, socket)
    {
      if tempListener.None? {
        TempRemoved(before, temp, path, socket);
        Remove(temp + ["socket"]);
        steps := [entries];
      } else {
        ghost var m :| entries == WithSocket(before, temp, Socket(tempListener.value, m));
        ghost var unplaced := Socket(tempListener.value, m);
        SocketMoves(before, temp, path, unplaced, unplaced);
        CloseListener(tempListener.value);
        steps := [entries];
        Remove(temp + ["socket"]);
        Associate(old(log), steps, [entries]);
        steps := steps + [entries];
      }
    }

    /** Listen with the temporary directory in place. */
    method ListenIn(ghost before: Entries, temp: Path, path: Path, mode: nat, fault: Fault)
      returns (r: Option<nat>, ghost steps: seq<Entries>, ghost n: nat)
      requires FreshTemp(before, temp) && path != [] && Dir(path) == Dir(temp)
      requires entries == WithTemp(before, temp) && nextInode !in listening
      modifies this
      ensures log == old(log) + steps && nextInode in {old(nextInode), old(nextInode) + 1}
      ensures r.Some? <==> fault in {NoFault, AtMkdir} && !IsDirectory(before, path) && path != temp
      ensures var socket := Socket(old(nextInode), mode);
              && (r.None? ==> n == |steps|)
              && SwitchesAt(steps, n, before, temp, path, socket)
              && if r.Some? then
                   && r.value == old(nextInode) < nextInode
                   && entries == WithTemp(before, temp)[path := socket]
                   && listening == old(listening) + {r.value}
                 else
                   entries == WithTemp(before, temp) && listening == old(listening)
    {
      ghost var start, socket := log, Socket(nextInode, mode);
      TempNames(before, temp, path);
      var bound := ListenUnix(temp + ["socket"], fault == AtBind);
      steps, n := [entries], 1;
      if bound.None? {
        return None, steps, 1;
      }
      var tempListener := bound;
      var ok, placing := Place(before, temp, path, bound.value, mode, fault);
      ghost var m := if ok then |placing| - 1 else |placing|;
      SwitchConcat(steps, n, placing, m, before, temp, path, socket);
      Associate(start, steps, placing);
      steps, n := steps + placing, n + m;
      r := None;
      if ok {
        r, tempListener := tempListener, None;
      }
      ghost var ending := RunDeferred(before, temp, path, tempListener, socket);
      m := if ok then 0 else |ending|;
      SwitchConcat(steps, n, ending, m, before, temp, path, socket);
      Associate(start, steps, ending);
      steps, n := steps + ending, n + m;
    }

    /** Listen: the socket is bound in a temporary directory and renamed into place. It succeeds exactly when no
        call fails for other reasons, the directory exists, a temporary name is free and is not that of path, and path
        names no directory. Publication is atomic exactly if path does not become the temporary directory. */
    method Listen(path: Path, mode: nat, randoms: seq<string>, fault: Fault) returns (r: Option<nat>)
      requires Valid() && path != []
      modifies this
      ensures Valid()
      ensures r.Some? <==> && fault == NoFault
                           && IsDirectory(old(entries), Dir(path)) && !IsDirectory(old(entries), path)
                           && FirstFree(old(entries), Dir(path), randoms) !in {None, Some(path)}
      ensures r.None? ==> entries == old(entries) && listening == old(listening)
      ensures r.Some? ==>
                && r.value == old(nextInode)
                && entries == old(entries)[path := Socket(r.value, mode)]
                && listening == old(listening) + {r.value}
      ensures var temp := FirstFree(old(entries), Dir(path), randoms);
              Recorded(old(log), log, old(entries), path, if temp.Some? then temp.value else [],
                       Socket(old(nextInode), mode))
      ensures Atomic(log[|old(log)|..], old(entries), path, Socket(old(nextInode), mode))
              <==> !(fault != AtMkdir && BecomesTemp(old(entries), path, randoms))
      ensures fault != AtMkdir && BecomesTemp(old(entries), path, randoms) ==>
                exists i :: |old(log)| <= i < |log| && Shows(log[i], path, Directory)
    {
      ghost var before, socket, free := entries, Socket(nextInode, mode), FirstFree(entries, Dir(path), randoms);
      ghost var temp := if free.Some? then free.value else [];
      StaysWellFormed(before, nextInode, listening, path, mode);
      NothingRecorded(log, before, path, temp, socket);
      var tempDir := MkdirTemp(Dir(path), randoms, fault == AtMkdir);
      if tempDir.None? {
        assert log[|old(log)|..] == [before];
        return None;
      }
      FreshTempName(before, nextInode, listening, path, randoms);
      ghost var steps, n;
      r, steps, n := ListenIn(before, tempDir.value, path, mode, fault);
      TempRemoved(before, temp, path, socket);
      Remove(tempDir.value);
      PublicationLogged(old(log), steps, n, entries, before, temp, path, socket, r.Some?);
      if path == temp {
        NotAtomic(old(log), steps, before, path, entries, socket);
      } else {
        PublishedElsewhere(log[|old(log)|..], before, path, temp, socket);
      }
    }
  }
}
