/** open.go, close.go, builtin.go and tls/listener.go: opening listeners, and which descriptors that leaves open. */
module OpenListeners {
  import opened Prelude
  import opened Strings
  import opened ListenerSpec
  import opened ListenerGrammar

  /** An open listener: a socket, or a wrapper around an inner listener. */
  datatype Listener =
    | SocketListener(id: nat, socket: Socket)
    | ProxyListener(inner: Listener)
    | TLSListener(cert: CertSource, protocols: seq<string>, defaultName: string, inner: Listener)

  function ShapeOf(l: Listener): Shape {
    match l
    case SocketListener(_, s) => Leaf(s)
    case ProxyListener(inner) => Proxy(ShapeOf(inner))
    case TLSListener(cert, protocols, defaultName, inner) => TLS(cert, protocols, defaultName, ShapeOf(inner))
  }

  /** The socket at the bottom, which closing the listener closes. */
  function SocketId(l: Listener): nat {
    match l
    case SocketListener(id, _) => id
    case ProxyListener(inner) => SocketId(inner)
    case TLSListener(_, _, _, inner) => SocketId(inner)
  }

  function SocketIds(ls: seq<Listener>): set<nat> {
    set i | 0 <= i < |ls| :: SocketId(ls[i])
  }

  lemma SocketIdsAppend(ls: seq<Listener>, l: Listener)
    ensures SocketIds(ls + [l]) == SocketIds(ls) + {SocketId(l)}
  {
    var more := ls + [l];
    assert more[|ls|] == l;
    forall i | 0 <= i < |ls|
      ensures SocketId(ls[i]) in SocketIds(more)
    {
      assert more[i] == ls[i];
    }
  }

  /** The environment: LISTEN_PID, our process number and LISTEN_FDNAMES, in which descriptors are passed, and the
      directory entry that each path leads to. */
  datatype Env = Env(listenPid: string, pid: int, fdNames: string, entry: string -> string)

  predicate PassedToUs(env: Env) {
    IsInt(env.listenPid) && IntValue(env.listenPid) == env.pid
  }

  /** The first position of a name. */
  function Position(names: seq<string>, name: string): (i: Option<nat>)
    ensures i.Some? ==> i.value < |names| && names[i.value] == name && name !in names[..i.value]
    ensures i.None? ==> name !in names
  {
    if names == [] then None
    else if names[0] == name then Some(0)
    else match Position(names[1..], name)
      case None => None
      case Some(i) => assert names[..i + 1] == [names[0]] + names[1..][..i]; Some(i + 1)
  }

  lemma FirstPosition(names: seq<string>, name: string, i: nat)
    requires i < |names| && names[i] == name && name !in names[..i]
    ensures Position(names, name) == Some(i)
  {
    var p := Position(names, name).value;
    assert forall j :: 0 <= j < i ==> names[j] == names[..i][j];
    assert forall j :: 0 <= j < p ==> names[j] == names[..p][j];
  }

  const FIRST_PASSED := 3

  /** The descriptor that a socket specification names: fd its number, fdname the one passed under that name. */
  function Named(env: Env, s: Socket): set<nat> {
    match s
    case FD(fd) => if AllDigits(fd) then {Value(fd)} else {}
    case FDName(name) =>
      var i := Position(Split(env.fdNames, ':'), name);
      if PassedToUs(env) && i.Some? then {FIRST_PASSED + i.value} else {}
    case _ => {}
  }

  /** Descriptors are passed if LISTEN_PID is our own process number. The first one is number 3, the next one 4, and so
      on; a name stands for the first one that has it. */
  lemma PassedInOrder(env: Env, names: seq<string>, i: nat)
    requires i < |names| && names[i] !in names[..i]
    requires Join(names, ':') == env.fdNames && forall k :: 0 <= k < |names| ==> ':' !in names[k]
    ensures Named(env, FDName(names[i]))
            == if IsInt(env.listenPid) && IntValue(env.listenPid) == env.pid then {3 + i} else {}
  {
    SplitJoin(names, ':');
    FirstPosition(names, names[i], i);
  }

  /** Any other name stands for none. */
  lemma NotPassed(env: Env, names: seq<string>, name: string)
    requires names != [] && name !in names
    requires Join(names, ':') == env.fdNames && forall k :: 0 <= k < |names| ==> ':' !in names[k]
    ensures Named(env, FDName(name)) == {}
  {
    SplitJoin(names, ':');
  }

  function SocketOf(t: Shape): Socket {
    match t
    case Leaf(s) => s
    case Proxy(inner) => SocketOf(inner)
    case TLS(_, _, _, inner) => SocketOf(inner)
  }

  function NamedBy(env: Env, expected: Result<Shape, OpenError>): set<nat> {
    if expected.Ok? then Named(env, SocketOf(expected.value)) else {}
  }

  /** A named descriptor can be used only if there is one and it is open. */
  predicate Available(env: Env, s: Socket, open: set<nat>) {
    s.FD? || s.FDName? ==> Named(env, s) != {} && Named(env, s) <= open
  }

  /** What the directory entries name, as numbers of files; next is the number of the next socket file. */
  datatype Names = Names(files: map<string, nat>, next: nat)

  /** What opening a listener touches: the open descriptors, and the entries of UNIX sockets; and, for each further
      attempt to create a socket, whether the system refuses it. Attempts after these succeed. */
  datatype System = System(open: set<nat>, names: Names, refusals: seq<bool>)

  predicate Refuses(refusals: seq<bool>) {
    refusals != [] && refusals[0]
  }

  function AfterAttempt(refusals: seq<bool>): seq<bool> {
    if refusals == [] then [] else refusals[1..]
  }

  /** A UNIX socket takes its path over. Nothing else that is opened has one, and closing does not give it back. */
  function Placed(env: Env, names: Names, s: Socket): Names {
    match s
    case Unix(path) => Names(names.files[env.entry(path) := names.next], names.next + 1)
    case _ => names
  }

  /** Opening what a specification denotes. A bad specification is refused with its own error; a good one fails only if
      the descriptor it names is not available, or the system refuses. Then no descriptor is left over and no path has
      changed. Otherwise there is exactly one new descriptor, the listener on top of it is the one denoted, and a UNIX
      socket is at its path. Either way the descriptor that was named is closed. */
  predicate Opened(env: Env, before: System, after: System, expected: Result<Shape, OpenError>,
                   r: Result<Listener, OpenError>) {
    match r
    case Ok(l) =>
      && expected == Ok(ShapeOf(l))
      && Available(env, SocketOf(ShapeOf(l)), before.open) && !Refuses(before.refusals)
      && SocketId(l) !in before.open
      && after.open == before.open - NamedBy(env, expected) + {SocketId(l)}
      && after.names == Placed(env, before.names, SocketOf(ShapeOf(l)))
      && after.refusals == AfterAttempt(before.refusals)
    case Err(e) =>
      && after.open == before.open - NamedBy(env, expected) && after.names == before.names
      && match expected
         case Err(own) => e == own && after.refusals == before.refusals
         case Ok(t) =>
           && e == SystemError
           && if Available(env, SocketOf(t), before.open) then
                Refuses(before.refusals) && after.refusals == AfterAttempt(before.refusals)
              else
                after.refusals == before.refusals
  }

  /** What a wrapper around inner denotes. */
  function TLSOf(inner: Result<Shape, OpenError>, cert: CertSource, protocols: seq<string>, name: string)
    : Result<Shape, OpenError>
  {
    if inner.Ok? then Ok(TLS(cert, protocols, name, inner.value)) else inner
  }

  lemma TLSOpened(env: Env, before: System, after: System, inner: Result<Shape, OpenError>,
                  r: Result<Listener, OpenError>, cert: CertSource, protocols: seq<string>, name: string)
    requires Opened(env, before, after, inner, r)
    ensures Opened(env, before, after, TLSOf(inner, cert, protocols, name),
                   if r.Ok? then Ok(TLSListener(cert, protocols, name, r.value)) else r)
  {
  }

  lemma {:induction false} UpperBound(s: set<nat>) returns (n: nat)
    ensures forall x :: x in s ==> x < n
    decreases |s|
  {
    n := 0;
    if s != {} {
      var x :| x in s;
      n := UpperBound(s - {x});
      assert forall y :: y in s ==> y == x || y in s - {x};
      n := if n <= x then x + 1 else n;
    }
  }

  // ---------------------------------------------------------------- several specifications

  function ResolveEach(net: Net, specs: seq<string>): seq<Result<Shape, OpenError>> {
    seq(|specs|, i requires 0 <= i < |specs| => Resolve(net, specs[i]))
  }

  /** The descriptors that each of the specifications names. */
  function NamedByEach(env: Env, expected: seq<Result<Shape, OpenError>>): seq<set<nat>> {
    seq(|expected|, i requires 0 <= i < |expected| => NamedBy(env, expected[i]))
  }

  function Union(named: seq<set<nat>>): set<nat> {
    set i, d | 0 <= i < |named| && d in named[i] :: d
  }

  /** Every descriptor that is named is open beforehand, and none is named twice. */
  predicate Separate(named: seq<set<nat>>, open: set<nat>) {
    && (forall i :: 0 <= i < |named| ==> named[i] <= open)
    && (forall i, j :: 0 <= i < j < |named| ==> named[i] !! named[j])
  }

  /** Each listener has an open socket, and has it to itself. */
  predicate Intact(ls: seq<Listener>, open: set<nat>) {
    && (forall i :: 0 <= i < |ls| ==> SocketId(ls[i]) in open)
    && (forall i, j :: 0 <= i < j < |ls| ==> SocketId(ls[i]) != SocketId(ls[j]))
  }

  lemma UnionAppend(named: seq<set<nat>>, now: set<nat>)
    ensures Union(named + [now]) == Union(named) + now
  {
    var more := named + [now];
    assert more[|named|] == now && forall i :: 0 <= i < |named| ==> more[i] == named[i];
  }

  lemma SeparateAppend(named: seq<set<nat>>, now: set<nat>, open: set<nat>)
    ensures Separate(named + [now], open) <==> Separate(named, open) && now <= open && now !! Union(named)
  {
    var more := named + [now];
    assert more[|named|] == now && forall i :: 0 <= i < |named| ==> more[i] == named[i];
    if Separate(more, open) {
      forall i | 0 <= i < |named|
        ensures named[i] !! now
      {
        assert more[i] !! more[|named|];
      }
    }
  }

  /** What is open while listeners are opened one after another: what was open before, without the descriptors named
      so far, and whatever is left of the new ones. */
  predicate OpenSoFar(named: seq<set<nat>>, ls: seq<Listener>, before: set<nat>, open: set<nat>) {
    var kept := before - Union(named);
    && SocketIds(ls) !! kept
    && kept <= open <= kept + SocketIds(ls)
    && (Intact(ls, open) <==> Separate(named, before))
  }

  lemma IntactAppend(ls: seq<Listener>, l: Listener, now: set<nat>, open: set<nat>, after: set<nat>)
    requires open <= after + now && after == open - now + {SocketId(l)} && SocketId(l) !in open
    ensures Intact(ls + [l], after) <==> Intact(ls, open) && now !! SocketIds(ls)
  {
    var more := ls + [l];
    assert more[|ls|] == l && forall i :: 0 <= i < |ls| ==> more[i] == ls[i];
    if Intact(more, after) {
      forall i | 0 <= i < |ls|
        ensures SocketId(ls[i]) in open - now
      {
        assert SocketId(more[i]) in after && SocketId(more[i]) != SocketId(more[|ls|]);
      }
    }
  }

  /** A listener is opened after others: it can take one of their sockets away only if its specification names a
      descriptor that was not open at the start, or that an earlier one named. */
  lemma OneMore(named: seq<set<nat>>, now: set<nat>, ls: seq<Listener>, l: Listener,
                before: set<nat>, open: set<nat>, after: set<nat>)
    requires OpenSoFar(named, ls, before, open)
    requires now <= open && SocketId(l) !in open && after == open - now + {SocketId(l)}
    ensures OpenSoFar(named + [now], ls + [l], before, after)
  {
    SocketIdsAppend(ls, l);
    UnionAppend(named, now);
    SeparateAppend(named, now, before);
    IntactAppend(ls, l, now, open, after);
  }

  /** Closing the new listeners after a failure leaves what was open before and was not named. */
  lemma NothingLeftOver(named: seq<set<nat>>, now: set<nat>, ls: seq<Listener>,
                        before: set<nat>, open: set<nat>, after: set<nat>)
    requires OpenSoFar(named, ls, before, open) && after == open - now - SocketIds(ls)
    ensures after == before - Union(named + [now])
    ensures after == before <==> Union(named + [now]) !! before
  {
    UnionAppend(named, now);
  }

  /** What the specifications denote is what was opened. */
  predicate Denoted(expected: seq<Result<Shape, OpenError>>, ls: seq<Listener>) {
    |ls| == |expected| && forall i :: 0 <= i < |ls| ==> expected[i] == Ok(ShapeOf(ls[i]))
  }

  /** The first k specifications have been opened. */
  predicate OpenedUpTo(env: Env, expected: seq<Result<Shape, OpenError>>, k: nat, ls: seq<Listener>,
                       before: set<nat>, open: set<nat>) {
    && k <= |expected|
    && Denoted(expected[..k], ls)
    && OpenSoFar(NamedByEach(env, expected)[..k], ls, before, open)
  }

  /** A listener that was opened used a descriptor that was open, and got one that was not. */
  lemma OpenedUsesOpen(env: Env, before: System, after: System, expected: Result<Shape, OpenError>, l: Listener)
    requires Opened(env, before, after, expected, Ok(l))
    ensures expected == Ok(ShapeOf(l)) && NamedBy(env, expected) <= before.open
    ensures SocketId(l) !in before.open && after.open == before.open - NamedBy(env, expected) + {SocketId(l)}
  {
  }

  lemma DenotedNext(expected: seq<Result<Shape, OpenError>>, k: nat, ls: seq<Listener>, l: Listener)
    requires k < |expected| && Denoted(expected[..k], ls) && expected[k] == Ok(ShapeOf(l))
    ensures Denoted(expected[..k + 1], ls + [l])
  {
    assert expected[..k + 1] == expected[..k] + [expected[k]];
  }

  lemma OpenedNext(env: Env, expected: seq<Result<Shape, OpenError>>, k: nat, ls: seq<Listener>, l: Listener,
                   before: set<nat>, now: set<nat>, after: set<nat>)
    requires k < |expected| && OpenedUpTo(env, expected, k, ls, before, now)
    requires expected[k] == Ok(ShapeOf(l)) && NamedBy(env, expected[k]) <= now
    requires SocketId(l) !in now && after == now - NamedBy(env, expected[k]) + {SocketId(l)}
    ensures OpenedUpTo(env, expected, k + 1, ls + [l], before, after)
  {
    var named := NamedByEach(env, expected);
    DenotedNext(expected, k, ls, l);
    OneMore(named[..k], named[k], ls, l, before, now, after);
    assert named[..k + 1] == named[..k] + [named[k]];
  }

  /** The UNIX sockets of the listeners denoted take their paths over, one after another. */
  function PlacedAll(env: Env, names: Names, expected: seq<Result<Shape, OpenError>>): Names {
    if expected == [] then names
    else
      var n := |expected| - 1;
      var earlier := PlacedAll(env, names, expected[..n]);
      if expected[n].Ok? then Placed(env, earlier, SocketOf(expected[n].value)) else earlier
  }

  lemma PlacedNext(env: Env, names: Names, expected: seq<Result<Shape, OpenError>>, k: nat)
    requires k < |expected| && expected[k].Ok?
    ensures PlacedAll(env, names, expected[..k + 1])
            == Placed(env, PlacedAll(env, names, expected[..k]), SocketOf(expected[k].value))
  {
    assert expected[..k + 1][..k] == expected[..k];
  }

  /** The entries of the UNIX sockets denoted. */
  function Entry(env: Env, expected: Result<Shape, OpenError>): Option<string> {
    if expected.Ok? && SocketOf(expected.value).Unix? then Some(env.entry(SocketOf(expected.value).path)) else None
  }

  predicate Replaces(env: Env, expected: seq<Result<Shape, OpenError>>, entry: string) {
    exists i :: 0 <= i < |expected| && Entry(env, expected[i]) == Some(entry)
  }

  predicate AllKnown(names: Names) {
    forall entry :: entry in names.files ==> names.files[entry] < names.next
  }

  /** An entry names a new socket exactly if one of the specifications is for a UNIX socket there; all other entries
      name what they named before, or still nothing. */
  lemma {:induction false} PlacedExactly(env: Env, names: Names, expected: seq<Result<Shape, OpenError>>, entry: string)
    requires AllKnown(names)
    ensures var after := PlacedAll(env, names, expected);
            && AllKnown(after) && names.next <= after.next
            && (Replaces(env, expected, entry) <==> entry in after.files && after.files[entry] >= names.next)
            && (!Replaces(env, expected, entry) ==>
                  && (entry in after.files <==> entry in names.files)
                  && (entry in names.files ==> after.files[entry] == names.files[entry]))
    decreases expected
  {
    if expected != [] {
      var n := |expected| - 1;
      PlacedExactly(env, names, expected[..n], entry);
      assert Replaces(env, expected, entry)
             <==> Replaces(env, expected[..n], entry) || Entry(env, expected[n]) == Some(entry) by {
        assert forall i :: 0 <= i < n ==> expected[..n][i] == expected[i];
      }
    }
  }

  /** Opening all specifications, given what each denotes. On success, listener i is the one spec i denotes; and
      exactly if the specifications name separate descriptors that were open before, each listener has an open socket
      to itself. On failure, the first specification that cannot be opened is named, and the descriptors open are those
      that were open before and that no specification up to that one names: all of them, exactly if none of those was
      named. The UNIX sockets opened have taken their paths over, even if a later specification failed. */
  predicate OpenedAll(env: Env, expected: seq<Result<Shape, OpenError>>, before: System, after: System,
                      r: Result<seq<Listener>, (nat, OpenError)>) {
    var named := NamedByEach(env, expected);
    match r
    case Ok(ls) =>
      && Denoted(expected, ls)
      && (Intact(ls, after.open) <==> Separate(named, before.open))
      && (Intact(ls, after.open) ==> after.open == before.open - Union(named) + SocketIds(ls))
      && before.open - Union(named) <= after.open - SocketIds(ls)
      && after.names == PlacedAll(env, before.names, expected)
    case Err((k, e)) =>
      && k < |expected|
      && (forall i :: 0 <= i < k ==> expected[i].Ok?)
      && (expected[k] == Err(e) || (expected[k].Ok? && e == SystemError))
      && after.open == before.open - Union(named[..k + 1])
      && (after.open == before.open <==> Union(named[..k + 1]) !! before.open)
      && after.names == PlacedAll(env, before.names, expected[..k])
  }

  lemma AllOpened(env: Env, expected: seq<Result<Shape, OpenError>>, ls: seq<Listener>,
                  before: System, after: System)
    requires OpenedUpTo(env, expected, |expected|, ls, before.open, after.open)
    requires after.names == PlacedAll(env, before.names, expected[..|expected|])
    ensures OpenedAll(env, expected, before, after, Ok(ls))
  {
    assert NamedByEach(env, expected)[..|expected|] == NamedByEach(env, expected);
    assert expected[..|expected|] == expected;
  }

  /** A failure closes no more than what was named. */
  lemma FailureClosesNamed(env: Env, before: System, after: System, expected: Result<Shape, OpenError>, e: OpenError)
    requires Opened(env, before, after, expected, Err(e))
    ensures after.open == before.open - NamedBy(env, expected) && after.names == before.names
    ensures expected == Err(e) || (expected.Ok? && e == SystemError)
  {
  }

  lemma FailedNext(env: Env, expected: seq<Result<Shape, OpenError>>, k: nat, ls: seq<Listener>, e: OpenError,
                   before: System, now: set<nat>, after: System)
    requires k < |expected| && OpenedUpTo(env, expected, k, ls, before.open, now)
    requires expected[k] == Err(e) || (expected[k].Ok? && e == SystemError)
    requires after.open == now - NamedBy(env, expected[k]) - SocketIds(ls)
    requires after.names == PlacedAll(env, before.names, expected[..k])
    ensures OpenedAll(env, expected, before, after, Err((k, e)))
  {
    var named := NamedByEach(env, expected);
    NothingLeftOver(named[..k], named[k], ls, before.open, now, after.open);
    assert named[..k + 1] == named[..k] + [named[k]];
    assert forall i :: 0 <= i < k ==> expected[i] == expected[..k][i];
  }

  /** Nothing stands in the way of opening them all: each denotes a listener, the descriptors named are there and
      separate, and the system will not refuse. */
  predicate CanOpenAll(env: Env, expected: seq<Result<Shape, OpenError>>, before: System) {
    && true !in before.refusals
    && Separate(NamedByEach(env, expected), before.open)
    && forall i :: 0 <= i < |expected| ==>
         expected[i].Ok? && Available(env, SocketOf(expected[i].value), before.open)
  }

  /** What is available at the start stays so until its turn, if the descriptors named are separate. */
  lemma StaysAvailable(env: Env, expected: seq<Result<Shape, OpenError>>, k: nat, ls: seq<Listener>,
                       before: System, now: set<nat>)
    requires k < |expected| && OpenedUpTo(env, expected, k, ls, before.open, now) && CanOpenAll(env, expected, before)
    ensures expected[k].Ok? && Available(env, SocketOf(expected[k].value), now)
  {
    var named := NamedByEach(env, expected);
    assert forall d :: d in named[k] ==> d !in Union(named[..k]);
  }

  /** A failing call leaves every directory entry as it was exactly if none of the specifications before the failing one
      is for a UNIX socket. */
  lemma FailureReplacesPaths(env: Env, expected: seq<Result<Shape, OpenError>>, before: System, after: System,
                             k: nat, e: OpenError)
    requires AllKnown(before.names) && OpenedAll(env, expected, before, after, Err((k, e)))
    ensures after.names.files == before.names.files <==> forall i :: 0 <= i < k ==> Entry(env, expected[i]) == None
    ensures forall i :: 0 <= i < k && Entry(env, expected[i]).Some? ==>
              var entry := Entry(env, expected[i]).value;
              entry in after.names.files && after.names.files[entry] >= before.names.next
  {
    var done := expected[..k];
    forall entry
      ensures Replaces(env, done, entry)
              <==> entry in after.names.files && after.names.files[entry] >= before.names.next
      ensures !Replaces(env, done, entry) ==>
                && (entry in after.names.files <==> entry in before.names.files)
                && (entry in before.names.files ==> after.names.files[entry] == before.names.files[entry])
    {
      PlacedExactly(env, before.names, done, entry);
    }
    forall i | 0 <= i < k && Entry(env, expected[i]).Some?
      ensures Replaces(env, done, Entry(env, expected[i]).value)
    {
      assert done[i] == expected[i];
    }
    if forall i :: 0 <= i < k ==> Entry(env, expected[i]) == None {
      assert forall entry :: !Replaces(env, done, entry);
      assert after.names.files == before.names.files;
    }
  }

  lemma FDResolves(net: Net, fd: string)
    requires IsUint64(fd)
    ensures Resolve(net, "fd" + ":" + fd) == Ok(Leaf(FD(fd)))
  {
    FirstSeparator("fd", ':', fd);
    assert "fd" + ":" + fd == "fd" + [':'] + fd;
  }

  lemma PortAlone(net: Net, port: string)
    requires IsInt(port) && ':' !in port
    ensures Resolve(net, port) == Ok(Leaf(TCP("", port)))
  {
  }

  /** A failure that leaves a trace: whatever comes of opening a descriptor and then a bad specification, the descriptor
      is closed, and nothing else. */
  lemma NamedIsLost(env: Env, fd: string, bad: OpenError, before: System, after: System,
                    r: Result<seq<Listener>, (nat, OpenError)>)
    requires IsUint64(fd) && OpenedAll(env, [Ok(Leaf(FD(fd))), Err(bad)], before, after, r)
    ensures r.Err? && after.open == before.open - {Value(fd)}
  {
    var expected: seq<Result<Shape, OpenError>> := [Ok(Leaf(FD(fd))), Err(bad)];
    var named := NamedByEach(env, expected);
    assert named[0] == {Value(fd)} && named[1] == {};
    assert expected[1].Err?;
    var k := r.error.0;
    assert named[..k + 1][0] == named[0];
    assert Union(named[..k + 1]) == {Value(fd)};
  }

  lemma DescriptorThree(net: Net, bad: string)
    ensures ResolveEach(net, ["fd" + ":" + "3", bad]) == [Ok(Leaf(FD("3"))), Resolve(net, bad)]
    ensures IsUint64("3") && Value("3") == 3
  {
    assert Value("3") == 3;
    FDResolves(net, "3");
  }

  /** For instance: descriptor 3. */
  lemma InheritedIsLost(net: Net, env: Env, bad: string, before: System, after: System,
                        r: Result<seq<Listener>, (nat, OpenError)>)
    requires Resolve(net, bad).Err? && before.open == {3, 7}
    requires OpenedAll(env, ResolveEach(net, ["fd" + ":" + "3", bad]), before, after, r)
    ensures r.Err? && after.open == {7}
  {
    DescriptorThree(net, bad);
    NamedIsLost(env, "3", Resolve(net, bad).error, before, after, r);
  }

  /** A success that loses a socket: a TCP listener happens to get just the descriptor that a later specification
      names, and that one then takes it away. */
  lemma LaterTakesAway(env: Env, names: Names, port: string, fd: string, other: nat)
    requires IsUint64(fd) && other != Value(fd)
    ensures var expected: seq<Result<Shape, OpenError>> := [Ok(Leaf(TCP("", port))), Ok(Leaf(FD(fd)))];
            var ls := [SocketListener(Value(fd), TCP("", port)), SocketListener(other, FD(fd))];
            var none, one := System({}, names, []), System({Value(fd)}, names, []);
            var two := System({other}, names, []);
            && Opened(env, none, one, expected[0], Ok(ls[0]))
            && Opened(env, one, two, expected[1], Ok(ls[1]))
            && OpenedAll(env, expected, none, two, Ok(ls))
            && !Intact(ls, two.open)
  {
    var expected: seq<Result<Shape, OpenError>> := [Ok(Leaf(TCP("", port))), Ok(Leaf(FD(fd)))];
    var ls := [SocketListener(Value(fd), TCP("", port)), SocketListener(other, FD(fd))];
    var named, two := NamedByEach(env, expected), System({other}, names, []);
    assert SocketId(ls[0]) !in two.open;
    assert named[0] == {} && named[1] == {Value(fd)};
    assert !(named[1] <= {});
    PlacedNext(env, names, expected, 0);
    PlacedNext(env, names, expected, 1);
    assert expected[..2] == expected;
  }

  lemma PortEightyThenThree(net: Net)
    ensures ResolveEach(net, ["80", "fd" + ":" + "3"]) == [Ok(Leaf(TCP("", "80"))), Ok(Leaf(FD("3")))]
    ensures IsUint64("3") && Value("3") == 3
  {
    assert Value("8") == 8 && "80"[..1] == "8" && Value("3") == 3;
    PortAlone(net, "80");
    FDResolves(net, "3");
  }

  /** For instance: listeners for port 80 and then for descriptor 3. */
  lemma SocketIsTakenAway(net: Net, env: Env, names: Names)
    ensures var specs := ["80", "fd" + ":" + "3"];
            var ls := [SocketListener(3, TCP("", "80")), SocketListener(4, FD("3"))];
            && OpenedAll(env, ResolveEach(net, specs), System({}, names, []), System({4}, names, []), Ok(ls))
            && !Intact(ls, {4})
  {
    PortEightyThenThree(net);
    LaterTakesAway(env, names, "80", "3", 4);
  }

  class Host {
    const net: Net
    const env: Env
    /** The descriptors that are open; a listener's socket is known by its descriptor. */
    var open: set<nat>
    var refusals: seq<bool>
    /** What the entries of the directories name. */
    var names: Names

    constructor (net: Net, env: Env, inherited: set<nat>, files: map<string, nat>, next: nat, refusals: seq<bool>)
      requires AllKnown(Names(files, next))
      ensures open == inherited && names == Names(files, next) && this.net == net && this.env == env
    {
      this.net, this.env, open, names, this.refusals := net, env, inherited, Names(files, next), refusals;
    }

    function Now(): System
      reads this
    {
      System(open, names, refusals)
    }

    /** The system call at the end of the other leaf openers. The system picks any free descriptor. */
    method CreateSocket(s: Socket) returns (r: Result<Listener, OpenError>)
      modifies this`open, this`refusals
      ensures match r
              case Ok(l) => l == SocketListener(SocketId(l), s) && SocketId(l) !in old(open)
                            && open == old(open) + {SocketId(l)}
              case Err(e) => e == SystemError && open == old(open)
      ensures r.Err? <==> Refuses(old(refusals))
      ensures refusals == AfterAttempt(old(refusals))
    {
      var refused := Refuses(refusals);
      refusals := AfterAttempt(refusals);
      if refused {
        return Err(SystemError);
      }
      ghost var bound := UpperBound(open);
      assert bound !in open;
      var id: nat :| id !in open;
      r := Ok(SocketListener(id, s));
      open := open + {id};
    }

    /** net.FileListener on a descriptor, which must be an open socket: listens on a duplicate. The deferred Close
        then closes the descriptor itself. */
    method FileListener(fd: nat, s: Socket) returns (r: Result<Listener, OpenError>)
      modifies this`open, this`refusals
      ensures match r
              case Ok(l) => l == SocketListener(SocketId(l), s) && SocketId(l) !in old(open) && fd in old(open)
                            && open == old(open) - {fd} + {SocketId(l)}
              case Err(e) => e == SystemError && open == old(open) - {fd}
      ensures r.Ok? <==> fd in old(open) && !Refuses(old(refusals))
      ensures refusals == if fd in old(open) then AfterAttempt(old(refusals)) else old(refusals)
    {
      r := Err(SystemError);
      if fd in open {
        r := CreateSocket(s);
      }
      open := open - {fd};
    }

    method OpenFDListener(params: Params, arg: string) returns (r: Result<Listener, OpenError>)
      modifies this
      ensures Opened(env, old(Now()), Now(), MapLeaf(ResolveFD(params, arg)), r)
    {
      var fd;
      if arg != "" {
        fd := arg;
      } else if HasNumber(params, "fd") {
        fd := params["fd"].number;
      } else if HasText(params, "fd") {
        fd := params["fd"].text;
      } else {
        return Err(MissingArgument);
      }
      if !IsUint64(fd) {
        return Err(MalformedFD);
      }
      r := FileListener(Value(fd), FD(fd));
    }

    /** The loop of openFDNameListener over the names. */
    static method Search(names: seq<string>, name: string) returns (r: Option<nat>)
      ensures r == Position(names, name)
    {
      for i := 0 to |names|
        invariant name !in names[..i]
      {
        if names[i] == name {
          FirstPosition(names, name, i);
          return Some(i);
        }
      }
      assert names[..|names|] == names;
      r := None;
    }

    /** The checks of the environment in openFDNameListener, and the descriptor passed under a name. */
    method FindPassed(name: string) returns (fd: Option<nat>)
      ensures Named(env, FDName(name)) == if fd.Some? then {fd.value} else {}
    {
      if !IsInt(env.listenPid) || IntValue(env.listenPid) != env.pid {
        return None;
      }
      var i := Search(Split(env.fdNames, ':'), name);
      fd := if i.None? then None else Some(FIRST_PASSED + i.value);
    }

    method OpenFDNameListener(params: Params, arg: string) returns (r: Result<Listener, OpenError>)
      modifies this
      ensures Opened(env, old(Now()), Now(), MapLeaf(ResolveFDName(params, arg)), r)
    {
      var name;
      if arg != "" {
        name := arg;
      } else if HasText(params, "name") {
        name := params["name"].text;
      } else {
        return Err(MissingArgument);
      }
      var fd := FindPassed(name);
      if fd.None? {
        return Err(SystemError);
      }
      r := FileListener(fd.value, FDName(name));
    }

    method OpenTCPListener(params: Params, arg: string) returns (r: Result<Listener, OpenError>)
      modifies this
      ensures Opened(env, old(Now()), Now(), MapLeaf(ResolveTCP(net, params, arg)), r)
    {
      var ip, port := "", "";
      if arg != "" {
        if ':' in arg {
          var parts := net.splitHostPort(arg);
          if parts.None? {
            return Err(InvalidArgument);
          }
          ip, port := parts.value.0, parts.value.1;
        } else {
          port := arg;
        }
      } else if HasText(params, "address") {
        ip := params["address"].text;
      } else if HasNumber(params, "port") {
        port := params["port"].number;
      } else if HasText(params, "port") {
        port := params["port"].text;
      }
      if ip != "" && !net.isIP(ip) {
        return Err(InvalidIP);
      }
      if !IsInt(port) {
        return Err(InvalidPort);
      }
      r := CreateSocket(TCP(ip, port));
    }

    /** unix.Listen: on success, path names the new socket. */
    method ListenUnix(path: string) returns (r: Result<Listener, OpenError>)
      modifies this
      ensures Opened(env, old(Now()), Now(), Ok(Leaf(Unix(path))), r)
    {
      r := CreateSocket(Unix(path));
      if r.Ok? {
        names := Names(names.files[env.entry(path) := names.next], names.next + 1);
      }
    }

    method OpenUnixListener(params: Params, arg: string) returns (r: Result<Listener, OpenError>)
      modifies this
      ensures Opened(env, old(Now()), Now(), MapLeaf(ResolveUnix(params, arg)), r)
    {
      var path;
      if arg != "" {
        path := arg;
      } else if HasText(params, "path") {
        path := params["path"].text;
      } else {
        return Err(MissingArgument);
      }
      r := ListenUnix(path);
    }

    method OpenProxyListener(params: Params, arg: string) returns (r: Result<Listener, OpenError>)
      modifies this
      ensures Opened(env, old(Now()), Now(), ResolveProxy(net, params, arg), r)
      decreases |arg|, 1, Object(params), 0
    {
      if arg != "" {
        r := Open(arg);
      } else if HasObject(params, "listener") {
        r := OpenJSON(params["listener"].fields);
      } else {
        return Err(MissingInner);
      }
      if r.Ok? {
        r := Ok(ProxyListener(r.value));
      }
    }

    /** The certificate source and protocols that a text stands for. */
    static method CertFromText(certSpec: string) returns (cert: CertSource, nextProtos: seq<string>)
      ensures cert == ParseCert(certSpec) && nextProtos == Protocols(cert)
    {
      nextProtos := HTTP_PROTOCOLS;
      if HasPrefix(certSpec, '/') && HasSuffix(certSpec, '/') {
        cert := Directory(certSpec);
      } else if HasPrefix(certSpec, '/') {
        cert := File(certSpec);
      } else {
        cert := Automatic(Split(certSpec, ','));
        nextProtos := nextProtos + [ACME_PROTOCOL];
      }
    }

    /** Those that parameters stand for. */
    static method CertFromFields(params: Params) returns (r: Option<(CertSource, seq<string>)>)
      ensures r == match CertFromParams(params)
                   case None => None
                   case Some(cert) => Some((cert, Protocols(cert)))
    {
      if HasText(params, "cert") {
        r := Some((File(params["cert"].text), HTTP_PROTOCOLS));
      } else if HasText(params, "cert_directory") {
        r := Some((Directory(params["cert_directory"].text), HTTP_PROTOCOLS));
      } else if "autocert_hostnames" in params && params["autocert_hostnames"].Strings? {
        r := Some((Automatic(params["autocert_hostnames"].strings), HTTP_PROTOCOLS + [ACME_PROTOCOL]));
      } else {
        r := None;
      }
    }

    method OpenHTTPSListener(params: Params, arg: string) returns (r: Result<Listener, OpenError>)
      modifies this
      ensures Opened(env, old(Now()), Now(), ResolveTLS(net, params, arg), r)
      decreases |arg|, 1, Object(params), 0
    {
      var cert, nextProtos;
      ghost var inner;
      if arg != "" {
        var i := IndexByte(arg, ':');
        if i == -1 {
          return Err(InvalidTLSSpec);
        }
        cert, nextProtos := CertFromText(arg[..i]);
        inner := Resolve(net, arg[i + 1..]);
        r := Open(arg[i + 1..]);
      } else {
        var source := CertFromFields(params);
        if source.None? {
          return Err(MissingCertificate);
        }
        cert, nextProtos := source.value.0, source.value.1;
        if !HasObject(params, "listener") {
          return Err(MissingInner);
        }
        inner := ResolveJSON(net, params["listener"].fields);
        r := OpenJSON(params["listener"].fields);
      }
      TLSOpened(env, old(Now()), Now(), inner, r, cert, nextProtos, DefaultName(params));
      assert ResolveTLS(net, params, arg) == TLSOf(inner, cert, nextProtos, DefaultName(params));
      if r.Ok? {
        r := Ok(TLSListener(cert, nextProtos, DefaultName(params), r.value));
      }
    }

    /** openType, with the registered types. */
    method OpenType(kind: string, params: Params, arg: string) returns (r: Result<Listener, OpenError>)
      modifies this
      ensures Opened(env, old(Now()), Now(), ResolveType(net, kind, params, arg), r)
      decreases |arg|, 1, Object(params), 1
    {
      if kind == "fd" {
        r := OpenFDListener(params, arg);
      } else if kind == "fdname" {
        r := OpenFDNameListener(params, arg);
      } else if kind == "tcp" {
        r := OpenTCPListener(params, arg);
      } else if kind == "unix" {
        r := OpenUnixListener(params, arg);
      } else if kind == "proxy" {
        r := OpenProxyListener(params, arg);
      } else if kind == "tls" || kind == "https" {
        r := OpenHTTPSListener(params, arg);
      } else {
        r := Err(UnknownType);
      }
    }

    /** The listener returned is the one that the text denotes. */
    method Open(spec: string) returns (r: Result<Listener, OpenError>)
      modifies this
      ensures Opened(env, old(Now()), Now(), Resolve(net, spec), r)
      ensures r.Ok? ==> Means(net, spec, ShapeOf(r.value)) && OffersEverywhere(ShapeOf(r.value))
      decreases |spec|, 0, Object(map[]), 0
    {
      var i := IndexByte(spec, ':');
      if i != -1 {
        r := OpenType(spec[..i], map[], spec[i + 1..]);
      } else {
        r := OpenTCPListener(map[], spec);
      }
      if r.Ok? {
        StringNotation(net, spec, ShapeOf(r.value));
        StringOffers(net, spec, ShapeOf(r.value));
      }
    }

    method OpenJSON(fields: Params) returns (r: Result<Listener, OpenError>)
      modifies this
      ensures Opened(env, old(Now()), Now(), ResolveJSON(net, fields), r)
      ensures r.Ok? ==> MeansJSON(fields, ShapeOf(r.value)) && OffersEverywhere(ShapeOf(r.value))
      decreases 0, 1, Object(fields), 2
    {
      if !HasText(fields, "type") {
        return Err(MissingType);
      }
      r := OpenType(fields["type"].text, fields, "");
      if r.Ok? {
        JSONNotation(net, fields, ShapeOf(r.value));
        JSONOffers(fields, ShapeOf(r.value));
      }
    }

    /** Closing a wrapper closes what it wraps. */
    method Close(l: Listener)
      modifies this`open
      ensures open == old(open) - {SocketId(l)}
      decreases l
    {
      match l
      case SocketListener(id, _) => open := open - {id};
      case ProxyListener(inner) => Close(inner);
      case TLSListener(_, _, _, inner) => Close(inner);
    }

    method CloseAll(listeners: seq<Listener>)
      modifies this`open
      ensures open == old(open) - SocketIds(listeners)
    {
      for i := 0 to |listeners|
        invariant open == old(open) - SocketIds(listeners[..i])
      {
        Close(listeners[i]);
        SocketIdsAppend(listeners[..i], listeners[i]);
        assert listeners[..i + 1] == listeners[..i] + [listeners[i]];
      }
      assert listeners[..|listeners|] == listeners;
    }

    /** All or nothing. */
    method OpenAll(specs: seq<string>) returns (r: Result<seq<Listener>, (nat, OpenError)>)
      modifies this
      ensures OpenedAll(env, ResolveEach(net, specs), old(Now()), Now(), r)
      ensures CanOpenAll(env, ResolveEach(net, specs), old(Now())) ==> r.Ok?
    {
      var listeners: seq<Listener> := [];
      ghost var expected := ResolveEach(net, specs);
      for k := 0 to |specs|
        invariant OpenedUpTo(env, expected, k, listeners, old(open), open)
        invariant names == PlacedAll(env, old(names), expected[..k])
        invariant true !in old(refusals) ==> true !in refusals
      {
        ghost var before := Now();
        var l := Open(specs[k]);
        ghost var after := Now();
        if l.Err? {
          if CanOpenAll(env, expected, old(Now())) {
            StaysAvailable(env, expected, k, listeners, old(Now()), before.open);
          }
          FailureClosesNamed(env, before, after, expected[k], l.error);
          CloseAll(listeners);
          FailedNext(env, expected, k, listeners, l.error, old(Now()), before.open, Now());
          return Err((k, l.error));
        }
        OpenedUsesOpen(env, before, after, expected[k], l.value);
        OpenedNext(env, expected, k, listeners, l.value, old(open), before.open, after.open);
        PlacedNext(env, old(names), expected, k);
        listeners := listeners + [l.value];
      }
      AllOpened(env, expected, listeners, old(Now()), Now());
      return Ok(listeners);
    }
  }
}
