/** A PROXY protocol listener makes progress: in every reachable state, what a goroutine has in hand can reach an Accept
    call, the next client can be accepted and served, and a Close call can run to its end. */
module ProxyListenerProgress {
  import opened Prelude
  import opened ByteStream
  import opened ProxyHeader
  import opened ProxyHeaderTheorems
  import opened ProxyListener
  import opened ProxyListenerTheorems

  lemma {:induction false} ExecConcat(st: State, a: seq<Event>, b: seq<Event>)
    ensures Exec(st, a + b) == Exec(Exec(st, a), b)
    decreases a
  {
    if a == [] {
      assert a + b == b;
    } else {
      assert (a + b)[1..] == a[1..] + b;
      ExecConcat(Step(st, a[0]), a[1..], b);
    }
  }

  lemma AddEvent(es: seq<Event>, e: Event)
    ensures Run(es + [e]) == Step(Run(es), e)
  {
    ExecConcat(INITIAL, es, [e]);
    assert Exec(Run(es), [e]) == Step(Run(es), e);
  }

  // ---------------------------------------------------------------- the acceptor stays

  predicate AcceptorStays(st: State) {
    st.acceptor == AcceptorExited ==> !st.innerOpen || st.done
  }

  lemma {:induction false} AcceptorStaysIn(st: State, es: seq<Event>)
    requires AcceptorStays(st)
    ensures AcceptorStays(Exec(st, es))
    decreases es
  {
    if es != [] {
      AcceptorStaysIn(Step(st, es[0]), es[1..]);
    }
  }

  /** The accept loop ends only once the inner listener is closed or Close has been called. */
  lemma AcceptorQuitsOnlyAtTheEnd(es: seq<Event>)
    requires Run(es).acceptor == AcceptorExited
    ensures !Run(es).innerOpen || Run(es).done
  {
    AcceptorStaysIn(INITIAL, es);
  }

  predicate NobodySawClosed(st: State) {
    !st.done ==> forall a :: 0 <= a < |st.accepts| ==> st.accepts[a] != GotClosed
  }

  lemma {:induction false} NobodySeesClosed(st: State, es: seq<Event>)
    requires NobodySawClosed(st)
    ensures NobodySawClosed(Exec(st, es))
    decreases es
  {
    if es != [] {
      NobodySeesClosed(Step(st, es[0]), es[1..]);
    }
  }

  /** Accept returns net.ErrClosed only after Close, and then it can. */
  lemma ClosedIsSeenExactlyAfterClose(es: seq<Event>, a: nat) returns (e: Event)
    requires a < |Run(es).accepts|
    ensures Run(es).accepts[a] == GotClosed ==> Run(es).done
    ensures Run(es).accepts[a] == Waiting && Run(es).done ==>
              Run(es + [e]) == Run(es).(accepts := Run(es).accepts[a := GotClosed])
  {
    NobodySeesClosed(INITIAL, es);
    e := AcceptSeesDone(a);
    AddEvent(es, e);
  }

  /** Anybody can call Accept and Close at any time; the call then waits. */
  lemma CallsBegin(es: seq<Event>)
    ensures Run(es + [CallAccept]) == Run(es).(accepts := Run(es).accepts + [Waiting])
    ensures Run(es + [CallClose]) == Run(es).(closers := Run(es).closers + [Locking])
  {
    AddEvent(es, CallAccept);
    AddEvent(es, CallClose);
  }

  /** An acceptor that cannot hand over its error after Close takes nothing more: it ends. */
  lemma AcceptorGivesUp(es: seq<Event>) returns (e: Event)
    requires Run(es).acceptor.AcceptorReporting? && Run(es).done
    ensures Run(es + [e]) == Run(es).(acceptor := AcceptorExited)
  {
    e := AcceptorSeesDone;
    AddEvent(es, e);
  }

  /** When the inner listener closes by itself, the accept loop can end, and that is all. */
  lemma InnerCloseEndsLoop(es: seq<Event>) returns (e: Event)
    ensures Run(es + [InnerDies]) == Run(es).(innerOpen := false)
    ensures Run(es).acceptor == Accepting ==>
              Run(es + [InnerDies] + [e]) == Run(es).(innerOpen := false, acceptor := AcceptorExited)
  {
    e := AcceptSeesClosed;
    AddEvent(es, InnerDies);
    AddEvent(es + [InnerDies], e);
  }

  lemma {:induction false} OpenUntilClosed(st: State, es: seq<Event>)
    requires InnerDies !in es && (st.innerCloses == 0 ==> st.innerOpen)
    ensures Exec(st, es).innerCloses == 0 ==> Exec(st, es).innerOpen
    decreases es
  {
    if es != [] {
      assert es[0] in es;
      OpenUntilClosed(Step(st, es[0]), es[1..]);
    }
  }

  /** The inner listener is open until it closes by itself or Close closes it. */
  lemma InnerStaysOpen(es: seq<Event>)
    requires InnerDies !in es && Run(es).innerCloses == 0
    ensures Run(es).innerOpen
  {
    OpenUntilClosed(INITIAL, es);
  }

  // ---------------------------------------------------------------- what is in hand reaches an Accept call

  /** A connection that a handler offers can be the result of any waiting Accept call, with its addresses; nothing else
      changes but that the handler is done. */
  lemma ConnectionReachesAccept(es: seq<Event>, c: nat, a: nat) returns (e: Event)
    requires c < |Run(es).conns| && Run(es).conns[c].phase.Sending?
    requires a < |Run(es).accepts| && Run(es).accepts[a] == Waiting
    ensures var st := Run(es);
            Run(es + [e]) == st.(accepts := st.accepts[a := GotConn(c, st.conns[c].phase.header)],
                                 conns := st.conns[c := st.conns[c].(phase := Exited)])
  {
    e := HandlerSends(c, a);
    AddEvent(es, e);
  }

  lemma ReportReachesAccept(es: seq<Event>, c: nat, a: nat) returns (e: Event)
    requires c < |Run(es).conns| && Run(es).conns[c].phase.Reporting?
    requires a < |Run(es).accepts| && Run(es).accepts[a] == Waiting
    ensures var st := Run(es);
            Run(es + [e]) == st.(accepts := st.accepts[a := GotError(Some(c), st.conns[c].phase.error)],
                                 conns := st.conns[c := st.conns[c].(phase := Exited)])
  {
    e := HandlerSends(c, a);
    AddEvent(es, e);
  }

  /** An error of the inner listener can be the result of any waiting Accept call, and then the acceptor goes on. */
  lemma ErrorReachesAccept(es: seq<Event>, a: nat) returns (e: Event)
    requires Run(es).acceptor.AcceptorReporting?
    requires a < |Run(es).accepts| && Run(es).accepts[a] == Waiting
    ensures var st := Run(es);
            Run(es + [e]) == st.(accepts := st.accepts[a := GotError(None, st.acceptor.error)], acceptor := Accepting)
  {
    e := AcceptorSends(a);
    AddEvent(es, e);
  }

  /** A client of whom nothing has been read, with an open connection. */
  function Fresh(peer: Peer): Conn {
    Conn(peer, SettingDeadline, false, peer.stream, 0)
  }

  /** While the listener and the inner one are open, the acceptor has an error in hand or takes the next client, or
      error, the inner listener has. */
  lemma NextIsAccepted(es: seq<Event>, peer: Peer) returns (client: Event, failure: Event)
    requires !Run(es).done && Run(es).innerOpen && !Run(es).acceptor.AcceptorReporting?
    ensures Run(es + [client]) == Run(es).(conns := Run(es).conns + [Fresh(peer)])
    ensures Run(es + [failure]) == Run(es).(acceptor := AcceptorReporting(InnerFailed))
  {
    AcceptorStaysIn(INITIAL, es);
    client, failure := AcceptConn(peer), AcceptFails;
    AddEvent(es, client);
    AddEvent(es, failure);
  }

  // ---------------------------------------------------------------- a client is served

  /** What goes wrong with a client's read deadline. */
  datatype Fault = NoFault | AtSetting | AtClearing

  /** What comes of a client, when so many of its bytes arrive before the deadline: the addresses that the bytes
      announce, or the error they give. */
  function Answer(peer: Peer, arrived: nat, fault: Fault): Result<Header, AcceptError> {
    var seen := Take(peer.stream, arrived);
    var read := Decode(peer.self, seen, if |seen| < |peer.stream| then Timeout else peer.ending).result;
    if fault == AtSetting then Err(DeadlineFailed)
    else if read.Err? then Err(HeaderFailed(read.error))
    else if fault == AtClearing then Err(DeadlineFailed)
    else Ok(read.value)
  }

  /** How a handler holds what it will hand over. */
  predicate Offers(conn: Conn, answer: Result<Header, AcceptError>) {
    match answer
    case Ok(h) => conn.phase == Sending(h) && conn.closes == 0 && !conn.deadline
    case Err(e) => conn.phase == Reporting(e) && conn.closes == 1
  }

  lemma HandlerMoves(st: State, c: nat, move: Move)
    requires c < |st.conns| && CanMove(st.conns[c], move, st.done)
    ensures Step(st, Handle(c, move)) == st.(conns := st.conns[c := HandlerStep(st.conns[c], move, st.done)])
  {
  }

  /** Handle events of one connection change nothing but that connection. */
  function Moves(conn: Conn, moves: seq<Move>, done: bool): Option<Conn>
    decreases moves
  {
    if moves == [] then Some(conn)
    else if CanMove(conn, moves[0], done) then Moves(HandlerStep(conn, moves[0], done), moves[1..], done)
    else None
  }

  function Handles(c: nat, moves: seq<Move>): seq<Event> {
    seq(|moves|, i requires 0 <= i < |moves| => Handle(c, moves[i]))
  }

  lemma {:induction false} HandlerRuns(st: State, c: nat, moves: seq<Move>)
    requires c < |st.conns| && Moves(st.conns[c], moves, st.done).Some?
    ensures Exec(st, Handles(c, moves)) == st.(conns := st.conns[c := Moves(st.conns[c], moves, st.done).value])
    decreases moves
  {
    if moves == [] {
      assert st.conns[c := st.conns[c]] == st.conns;
    } else {
      HandlerMoves(st, c, moves[0]);
      var st1 := Step(st, Handle(c, moves[0]));
      assert Handles(c, moves)[1..] == Handles(c, moves[1..]);
      HandlerRuns(st1, c, moves[1..]);
      var last := Moves(st.conns[c], moves, st.done).value;
      assert st1.conns[c := last] == st.conns[c := last];
    }
  }

  function ServiceMoves(arrived: nat, fault: Fault, readable: bool): seq<Move> {
    if fault == AtSetting then [SetDeadline(false), CloseConn]
    else if !readable then [SetDeadline(true), Read(arrived), CloseConn]
    else if fault == AtClearing then [SetDeadline(true), Read(arrived), ClearDeadline(false), CloseConn]
    else [SetDeadline(true), Read(arrived), ClearDeadline(true)]
  }

  predicate IsReadable(peer: Peer, arrived: nat) {
    var seen := Take(peer.stream, arrived);
    Decode(peer.self, seen, if |seen| < |peer.stream| then Timeout else peer.ending).result.Ok?
  }

  lemma MovesOne(conn: Conn, move: Move, more: seq<Move>, done: bool)
    requires CanMove(conn, move, done)
    ensures Moves(conn, [move] + more, done) == Moves(HandlerStep(conn, move, done), more, done)
  {
    assert ([move] + more)[1..] == more;
  }

  lemma ReadDecides(conn: Conn, arrived: nat)
    requires conn.unread == conn.peer.stream
    ensures var after, seen := ReadStep(conn, arrived), Take(conn.peer.stream, arrived);
            var read := Decode(conn.peer.self, seen,
                               if |seen| < |conn.peer.stream| then Timeout else conn.peer.ending).result;
            && after.closes == conn.closes && after.deadline == conn.deadline
            && after.phase == if read.Ok? then ClearingDeadline(read.value) else Failing(HeaderFailed(read.error))
  {
  }

  lemma HandlerServes(peer: Peer, arrived: nat, fault: Fault, done: bool)
    ensures var after := Moves(Fresh(peer), ServiceMoves(arrived, fault, IsReadable(peer, arrived)), done);
            after.Some? && Offers(after.value, Answer(peer, arrived, fault))
  {
    var start := Fresh(peer);
    var reading := HandlerStep(start, SetDeadline(true), done);
    var read := HandlerStep(reading, Read(arrived), done);
    ReadDecides(reading, arrived);
    if fault == AtSetting {
      MovesOne(start, SetDeadline(false), [CloseConn], done);
      MovesOne(HandlerStep(start, SetDeadline(false), done), CloseConn, [], done);
    } else if !IsReadable(peer, arrived) {
      MovesOne(start, SetDeadline(true), [Read(arrived), CloseConn], done);
      MovesOne(reading, Read(arrived), [CloseConn], done);
      MovesOne(read, CloseConn, [], done);
    } else if fault == AtClearing {
      MovesOne(start, SetDeadline(true), [Read(arrived), ClearDeadline(false), CloseConn], done);
      MovesOne(reading, Read(arrived), [ClearDeadline(false), CloseConn], done);
      MovesOne(read, ClearDeadline(false), [CloseConn], done);
      MovesOne(HandlerStep(read, ClearDeadline(false), done), CloseConn, [], done);
    } else {
      MovesOne(start, SetDeadline(true), [Read(arrived), ClearDeadline(true)], done);
      MovesOne(reading, Read(arrived), [ClearDeadline(true)], done);
      MovesOne(read, ClearDeadline(true), [], done);
    }
  }

  /** A client that connects while the listener is open can be served, whatever its bytes are and however many arrive in
      time: a waiting Accept call gets the addresses they announce, with the connection, or the error they give, the
      connection being closed once. */
  lemma ClientIsServed(es: seq<Event>, peer: Peer, arrived: nat, fault: Fault, a: nat) returns (more: seq<Event>)
    requires !Run(es).done && Run(es).innerOpen && !Run(es).acceptor.AcceptorReporting?
    requires a < |Run(es).accepts| && Run(es).accepts[a] == Waiting
    ensures var before, after := Run(es), Run(es + more);
            var c, answer := |before.conns|, Answer(peer, arrived, fault);
            && |after.conns| == c + 1 && after.conns[..c] == before.conns && after.conns[c].peer == peer
            && after.accepts == before.accepts[a := if answer.Ok? then GotConn(c, answer.value)
                                                    else GotError(Some(c), answer.error)]
            && after.conns[c].closes == (if answer.Ok? then 0 else 1)
            && after.acceptor == before.acceptor && after.done == before.done
  {
    var c := |Run(es).conns|;
    var client, _ := NextIsAccepted(es, peer);
    var accepted := Run(es + [client]);
    var moves := ServiceMoves(arrived, fault, IsReadable(peer, arrived));
    HandlerServes(peer, arrived, fault, false);
    HandlerRuns(accepted, c, moves);
    ExecConcat(INITIAL, es + [client], Handles(c, moves));
    var served := es + [client] + Handles(c, moves);
    var offer := Moves(Fresh(peer), moves, false).value;
    assert Run(served).conns[c] == offer;
    PeerStays(Fresh(peer), moves, false);
    var last;
    if Answer(peer, arrived, fault).Ok? {
      last := ConnectionReachesAccept(served, c, a);
    } else {
      last := ReportReachesAccept(served, c, a);
    }
    more := [client] + Handles(c, moves) + [last];
    assert es + more == served + [last];
  }

  lemma {:induction false} PeerStays(conn: Conn, moves: seq<Move>, done: bool)
    requires Moves(conn, moves, done).Some?
    ensures Moves(conn, moves, done).value.peer == conn.peer
    decreases moves
  {
    if moves != [] {
      PeerStays(HandlerStep(conn, moves[0], done), moves[1..], done);
    }
  }

  // ---------------------------------------------------------------- a Close call runs to its end

  predicate HasClosed(st: State, k: nat) {
    k < |st.closers| && st.closers[k] in {Closed, RefusedClosed}
  }

  /** The holder of the mutex can finish, which frees it. */
  lemma HolderFinishes(es: seq<Event>, k: nat) returns (more: seq<Event>)
    requires Run(es).mutex == Some(k)
    ensures Run(es + more).mutex == None && Run(es + more).done
    ensures k < |Run(es).closers| && HasClosed(Run(es + more), k)
    ensures Run(es + more).closers == Run(es).closers[k := Run(es + more).closers[k]]
    ensures Run(es).closers[k] == Checking ==> (Run(es + more).closers[k] == Closed <==> !Run(es).done)
  {
    ReachableInv(es);
    more := [];
    assert es + more == es;
    assert Run(es).closers[k] in {Checking, ClosingInner};
    if Run(es).closers[k] == Checking {
      more := [CheckDone(k)];
      AddEvent(es, CheckDone(k));
    }
    ReachableInv(es + more);
    if Run(es + more).closers[k] == ClosingInner {
      WinnerCounts(Run(es + more).closers, k);
      AddEvent(es + more, CloseInner(k));
      assert (es + more) + [CloseInner(k)] == es + (more + [CloseInner(k)]);
      more := more + [CloseInner(k)];
    }
  }

  /** Every Close call can return: with success if nobody had closed the listener before, and else with
      net.ErrClosed. */
  lemma CloseReturns(es: seq<Event>, k: nat) returns (more: seq<Event>)
    requires k < |Run(es).closers|
    ensures HasClosed(Run(es + more), k) && Run(es + more).done
    ensures Run(es).closers[k] == Locking && Run(es).mutex == None ==>
              (Run(es + more).closers[k] == Closed <==> !Run(es).done)
  {
    ReachableInv(es);
    more := [];
    assert es + more == es;
    if Run(es).mutex.Some? {
      more := HolderFinishes(es, Run(es).mutex.value);
      ReachableInv(es + more);
    }
    var free := es + more;
    if Run(free).closers[k] == Locking {
      AddEvent(free, Lock(k));
      var rest := HolderFinishes(free + [Lock(k)], k);
      assert (free + [Lock(k)]) + rest == es + (more + [Lock(k)] + rest);
      more := more + [Lock(k)] + rest;
    } else {
      ReturnedMeansDone(es + more, k);
    }
  }

  lemma ReturnedMeansDone(es: seq<Event>, k: nat)
    requires k < |Run(es).closers| && Run(es).mutex == None && Run(es).closers[k] != Locking
    ensures HasClosed(Run(es), k) && Run(es).done
  {
    ReachableInv(es);
    assert Run(es).closers[k] !in {Checking, ClosingInner};
    if Run(es).closers[k] == Closed {
      WinnerCounts(Run(es).closers, k);
    }
  }

  /** The inner listener is closed only after the listener's own channel. */
  lemma DoneBeforeInner(es: seq<Event>)
    ensures Run(es).innerCloses > 0 ==> Run(es).done
  {
    ReachableInv(es);
    FinishedAreWinners(Run(es).closers);
  }
}
