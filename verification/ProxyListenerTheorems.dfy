/** What holds in every run of a PROXY protocol listener, and why it always shuts down. */
module ProxyListenerTheorems {
  import opened Prelude
  import opened ByteStream
  import opened ProxyHeader
  import opened ProxyHeaderTheorems
  import opened ProxyHeaderWire
  import opened ProxyListener

  lemma ReachableInv(es: seq<Event>)
    ensures Inv(Run(es))
  {
    ExecKeepsInv(INITIAL, es);
  }

  // ---------------------------------------------------------------- connections

  /** The handler still has the connection, and it is open. */
  predicate Held(conn: Conn) {
    conn.closes == 0 && !conn.phase.Exited?
  }

  /** In every reachable state a connection is held open by its handler, or was closed once and never delivered,
      or was delivered to exactly one Accept call and never closed. */
  lemma ConnectionsAreConserved(es: seq<Event>, c: nat)
    requires c < |Run(es).conns|
    ensures var st, conn := Run(es), Run(es).conns[c];
            || (Held(conn) && Deliveries(st.accepts, c) == 0)
            || (!Held(conn) && conn.closes == 1 && Deliveries(st.accepts, c) == 0)
            || (!Held(conn) && conn.closes == 0 && Deliveries(st.accepts, c) == 1)
  {
    ReachableInv(es);
    assert HandlerInv(Run(es).conns[c]);
  }

  lemma {:induction false} DeliveredAtMostOnce(s: seq<AcceptCall>, c: nat, a: nat, b: nat)
    requires a < b < |s| && s[a].GotConn? && s[b].GotConn? && s[a].conn == c && s[b].conn == c
    ensures Deliveries(s, c) >= 2
  {
    if a == 0 {
      DeliveredAtLeastOnce(s[1..], c, b - 1);
    } else {
      DeliveredAtMostOnce(s[1..], c, a - 1, b - 1);
    }
  }

  lemma {:induction false} DeliveredAtLeastOnce(s: seq<AcceptCall>, c: nat, a: nat)
    requires a < |s| && s[a].GotConn? && s[a].conn == c
    ensures Deliveries(s, c) >= 1
  {
    if a > 0 {
      DeliveredAtLeastOnce(s[1..], c, a - 1);
    }
  }

  /** No two Accept calls return the same connection. */
  lemma DeliveriesAreDistinct(es: seq<Event>, a: nat, b: nat)
    requires a < b < |Run(es).accepts|
    requires Run(es).accepts[a].GotConn? && Run(es).accepts[b].GotConn?
    ensures Run(es).accepts[a].conn != Run(es).accepts[b].conn
  {
    ReachableInv(es);
    var st := Run(es);
    assert AcceptInv(st.conns, st.accepts[a]);
    if st.accepts[a].conn == st.accepts[b].conn {
      DeliveredAtMostOnce(st.accepts, st.accepts[a].conn, a, b);
    }
  }

  /** A connection that Accept returned is open, has no read deadline, carries the addresses its own stream
      announces, and has exactly the rest of that stream unread: all but the first 16 + length bytes. */
  lemma DeliveredConnectionsAreRight(es: seq<Event>, a: nat)
    requires a < |Run(es).accepts| && Run(es).accepts[a].GotConn?
    ensures var call := Run(es).accepts[a];
            && call.conn < |Run(es).conns|
            && var conn := Run(es).conns[call.conn];
               var stream := conn.peer.stream;
               && conn.closes == 0 && !conn.deadline
               && Decode(conn.peer.self, stream, conn.peer.ending) == Outcome(Ok(call.addresses), conn.unread)
               && |stream| >= 16
               && conn.unread == stream[HeaderSize(stream)..]
               && HeaderSize(stream) == 16 + GetUint16(stream[14..16])
               && Announces(conn.peer.self, stream, call.addresses)
  {
    ReachableInv(es);
    var st := Run(es);
    assert AcceptInv(st.conns, st.accepts[a]);
    var conn := st.conns[st.accepts[a].conn];
    assert HandlerInv(conn);
    ByteAccounting(conn.peer.self, conn.peer.stream, conn.peer.ending);
    OutcomeOnTheWire(conn.peer.self, conn.peer.stream, conn.peer.ending);
  }

  /** A connection is refused with a header error only if exactly the bytes read from it give that error: a whole
      header that is bad, or, for a failed read, less than a header, the stream having ended or the deadline passed. A
      handler gives up a connection silently only when the header was fine and the listener is done. */
  lemma RefusalsAreJustified(es: seq<Event>, c: nat)
    requires c < |Run(es).conns|
    ensures var conn := Run(es).conns[c];
            var whole := Decode(conn.peer.self, conn.peer.stream, conn.peer.ending);
            && (conn.phase.Reporting? && conn.phase.error.HeaderFailed? ==>
                  && |conn.unread| <= |conn.peer.stream|
                  && var cause := conn.phase.error.cause;
                     && Decode(conn.peer.self, Seen(conn), SeenEnding(conn)) == Outcome(Err(cause), [])
                     && if cause.ReadFailed? then IsCutShort(Seen(conn)) else whole == Outcome(Err(cause), conn.unread))
            && (conn.phase.Reporting? ==> conn.phase.error != InnerFailed)
            && (conn.phase.Abandoning? ==> whole.result.Ok? && Run(es).done)
  {
    ReachableInv(es);
    AbandonedWhenDone(INITIAL, es);
    assert HandlerInv(Run(es).conns[c]);
  }

  /** Every error that an Accept call has returned is the inner listener's own, or that of one connection, which was
      closed once; a header error is the one that connection was refused with. */
  lemma ReportsAreJustified(es: seq<Event>, a: nat)
    requires a < |Run(es).accepts| && Run(es).accepts[a].GotError?
    ensures var report, conns := Run(es).accepts[a], Run(es).conns;
            match report.from
            case None => report.error == InnerFailed
            case Some(c) =>
              && c < |conns| && conns[c].phase == Exited && conns[c].closes == 1
              && Deliveries(Run(es).accepts, c) == 0
              && report.error != InnerFailed
              && (report.error.HeaderFailed? ==> HeaderRefused(conns[c], report.error.cause))
  {
    ReachableInv(es);
    assert AcceptInv(Run(es).conns, Run(es).accepts[a]);
  }

  /** No two Accept calls return the report of the same connection. */
  lemma ReportsAreDistinct(es: seq<Event>, a: nat, b: nat)
    requires a < b < |Run(es).accepts| && Run(es).accepts[a].GotError? && Run(es).accepts[b].GotError?
    requires Run(es).accepts[a].from.Some?
    ensures Run(es).accepts[a].from != Run(es).accepts[b].from
  {
    ReachableInv(es);
    assert !SameReport(Run(es).accepts[a], Run(es).accepts[b]);
  }

  lemma {:induction false} AbandonedWhenDone(st: State, es: seq<Event>)
    requires forall c :: 0 <= c < |st.conns| && st.conns[c].phase.Abandoning? ==> st.done
    ensures forall c :: 0 <= c < |Exec(st, es).conns| && Exec(st, es).conns[c].phase.Abandoning? ==> Exec(st, es).done
    decreases es
  {
    if es != [] {
      AbandonedWhenDone(Step(st, es[0]), es[1..]);
    }
  }

  // ---------------------------------------------------------------- closing

  lemma {:induction false} WinnersCount(s: seq<CloseCall>, j: nat, k: nat)
    requires j < k < |s| && s[j] in {ClosingInner, Closed} && s[k] in {ClosingInner, Closed}
    ensures Winners(s) >= 2
  {
    if j == 0 {
      WinnerCounts(s[1..], k - 1);
    } else {
      WinnersCount(s[1..], j - 1, k - 1);
    }
  }

  lemma {:induction false} WinnerCounts(s: seq<CloseCall>, k: nat)
    requires k < |s| && s[k] in {ClosingInner, Closed}
    ensures Winners(s) >= 1
  {
    if k > 0 {
      WinnerCounts(s[1..], k - 1);
    }
  }

  lemma {:induction false} WinnerExists(s: seq<CloseCall>) returns (k: nat)
    requires Winners(s) > 0
    ensures k < |s| && s[k] in {ClosingInner, Closed}
  {
    if s[0] in {ClosingInner, Closed} {
      return 0;
    }
    k := WinnerExists(s[1..]);
    k := k + 1;
  }

  lemma {:induction false} FinishedAreWinners(s: seq<CloseCall>)
    ensures Finished(s) <= Winners(s)
  {
    if s != [] {
      FinishedAreWinners(s[1..]);
    }
  }

  /** However many Close calls run at once: the done channel and the inner listener are closed at most once, and
      when any call has returned there is exactly one call that did not return net.ErrClosed. */
  lemma ClosesExactlyOnce(es: seq<Event>)
    ensures var st := Run(es);
            && st.doneCloses <= 1 && st.innerCloses <= 1
            && (forall j, k :: 0 <= j < k < |st.closers| ==>
                  !(st.closers[j] in {ClosingInner, Closed} && st.closers[k] in {ClosingInner, Closed}))
            && ((exists k :: 0 <= k < |st.closers| && st.closers[k] in {Closed, RefusedClosed}) ==>
                  exists k :: 0 <= k < |st.closers| && st.closers[k] in {ClosingInner, Closed})
  {
    ReachableInv(es);
    var st := Run(es);
    FinishedAreWinners(st.closers);
    forall j, k | && 0 <= j < k < |st.closers|
                  && st.closers[j] in {ClosingInner, Closed} && st.closers[k] in {ClosingInner, Closed}
      ensures false
    {
      WinnersCount(st.closers, j, k);
    }
    if st.done {
      var k := WinnerExists(st.closers);
    }
  }

  // ---------------------------------------------------------------- shutdown

  /** Close has done its work. */
  predicate IsClosed(st: State) {
    st.done && !st.innerOpen
  }

  lemma {:induction false} FinishedCounts(s: seq<CloseCall>, k: nat)
    requires k < |s| && s[k] == Closed
    ensures Finished(s) >= 1
  {
    if k > 0 {
      FinishedCounts(s[1..], k - 1);
    }
  }

  lemma CloseHasReturned(es: seq<Event>, k: nat)
    requires k < |Run(es).closers| && Run(es).closers[k] == Closed
    ensures IsClosed(Run(es))
  {
    ReachableInv(es);
    WinnerCounts(Run(es).closers, k);
    FinishedCounts(Run(es).closers, k);
  }

  function AcceptorRank(a: Acceptor): nat {
    match a
    case AcceptorReporting(_) => 2
    case Accepting => 1
    case AcceptorExited => 0
  }

  function ConnRank(c: Conn): nat {
    match c.phase
    case SettingDeadline => 7
    case Reading => 6
    case ClearingDeadline(_) => 5
    case Sending(_) => 4
    case Failing(_) => 3
    case Reporting(_) => 2
    case Abandoning => 1
    case Exited => 0
  }

  function AcceptRank(a: AcceptCall): nat {
    if a == Waiting then 1 else 0
  }

  function CloseRank(c: CloseCall): nat {
    match c
    case Locking => 3
    case Checking => 2
    case ClosingInner => 1
    case Closed => 0
    case RefusedClosed => 0
  }

  function ConnRanks(s: seq<Conn>): seq<nat> {
    seq(|s|, i requires 0 <= i < |s| => ConnRank(s[i]))
  }

  function AcceptRanks(s: seq<AcceptCall>): seq<nat> {
    seq(|s|, i requires 0 <= i < |s| => AcceptRank(s[i]))
  }

  function CloseRanks(s: seq<CloseCall>): seq<nat> {
    seq(|s|, i requires 0 <= i < |s| => CloseRank(s[i]))
  }

  /** A bound on the steps that all goroutines and calls together can still take. */
  function Rank(st: State): nat {
    AcceptorRank(st.acceptor) + Sum(ConnRanks(st.conns)) + Sum(AcceptRanks(st.accepts)) + Sum(CloseRanks(st.closers))
  }

  lemma ConnRankUpdate(s: seq<Conn>, i: nat, x: Conn)
    requires i < |s|
    ensures Sum(ConnRanks(s[i := x])) + ConnRank(s[i]) == Sum(ConnRanks(s)) + ConnRank(x)
  {
    SumUpdate(ConnRanks(s), i, ConnRank(x));
    assert ConnRanks(s[i := x]) == ConnRanks(s)[i := ConnRank(x)];
  }

  lemma AcceptRankUpdate(s: seq<AcceptCall>, i: nat, x: AcceptCall)
    requires i < |s|
    ensures Sum(AcceptRanks(s[i := x])) + AcceptRank(s[i]) == Sum(AcceptRanks(s)) + AcceptRank(x)
  {
    SumUpdate(AcceptRanks(s), i, AcceptRank(x));
    assert AcceptRanks(s[i := x]) == AcceptRanks(s)[i := AcceptRank(x)];
  }

  lemma CloseRankUpdate(s: seq<CloseCall>, i: nat, x: CloseCall)
    requires i < |s|
    ensures Sum(CloseRanks(s[i := x])) + CloseRank(s[i]) == Sum(CloseRanks(s)) + CloseRank(x)
  {
    SumUpdate(CloseRanks(s), i, CloseRank(x));
    assert CloseRanks(s[i := x]) == CloseRanks(s)[i := CloseRank(x)];
  }

  lemma CallRank(st: State, e: Event)
    requires IsCall(e)
    ensures Rank(Step(st, e)) <= Rank(st) + 3
  {
    if e.CallAccept? {
      SumAppend(AcceptRanks(st.accepts), 1);
      assert AcceptRanks(st.accepts + [Waiting]) == AcceptRanks(st.accepts) + [1];
    } else if e.CallClose? {
      SumAppend(CloseRanks(st.closers), 3);
      assert CloseRanks(st.closers + [Locking]) == CloseRanks(st.closers) + [3];
    }
  }

  lemma ItemRank(st: State, e: Event)
    requires IsItem(e)
    ensures Rank(Step(st, e)) <= Rank(st) + 7
  {
    if e.AcceptConn? && Enabled(st, e) {
      var conn := Step(st, e).conns[|st.conns|];
      SumAppend(ConnRanks(st.conns), ConnRank(conn));
      assert ConnRanks(st.conns + [conn]) == ConnRanks(st.conns) + [ConnRank(conn)];
    }
  }

  /** A step that a goroutine or a call takes on what it already has. */
  predicate IsOwnStep(e: Event) {
    !IsCall(e) && !IsItem(e)
  }

  lemma HandlerLowersRank(st: State, e: Event)
    requires Enabled(st, e) && (e.Handle? || e.HandlerSends?)
    ensures Rank(Step(st, e)) < Rank(st)
  {
    ConnRankUpdate(st.conns, e.c, Step(st, e).conns[e.c]);
    if e.HandlerSends? {
      AcceptRankUpdate(st.accepts, e.a, Step(st, e).accepts[e.a]);
    }
  }

  lemma CloserLowersRank(st: State, e: Event)
    requires Enabled(st, e) && (e.Lock? || e.CheckDone? || e.CloseInner?)
    ensures Rank(Step(st, e)) < Rank(st)
  {
    CloseRankUpdate(st.closers, e.k, Step(st, e).closers[e.k]);
  }

  /** Every step of a goroutine or a call lowers the rank; what could raise it is new calls and new items. */
  lemma StepLowersRank(st: State, e: Event)
    requires Enabled(st, e) && IsOwnStep(e)
    ensures Rank(Step(st, e)) < Rank(st)
  {
    if e.Handle? || e.HandlerSends? {
      HandlerLowersRank(st, e);
    } else if e.Lock? || e.CheckDone? || e.CloseInner? {
      CloserLowersRank(st, e);
    } else if e.AcceptorSends? || e.AcceptSeesDone? {
      AcceptRankUpdate(st.accepts, e.a, Step(st, e).accepts[e.a]);
    }
  }

  /** How many of the events are steps actually taken by goroutines or pending calls. */
  function StepsTaken(st: State, es: seq<Event>): nat
    decreases es
  {
    if es == [] then 0
    else (if Enabled(st, es[0]) && IsOwnStep(es[0]) then 1 else 0) + StepsTaken(Step(st, es[0]), es[1..])
  }

  function Calls(es: seq<Event>): nat {
    if es == [] then 0 else (if IsCall(es[0]) then 1 else 0) + Calls(es[1..])
  }

  /** The connections and errors obtained from the inner listener. */
  function Items(st: State, es: seq<Event>): nat
    decreases es
  {
    if es == [] then 0
    else (if Enabled(st, es[0]) && IsItem(es[0]) then 1 else 0) + Items(Step(st, es[0]), es[1..])
  }

  /** After Close there are only so many steps left, whatever the schedule; each later call adds at most three, and
      each item that the inner listener yields although it is closed, at most seven. */
  lemma {:induction false} ShutdownIsBounded(st: State, es: seq<Event>)
    requires IsClosed(st)
    ensures IsClosed(Exec(st, es))
    ensures StepsTaken(st, es) + Rank(Exec(st, es)) <= Rank(st) + 3 * Calls(es) + 7 * Items(st, es)
    decreases es
  {
    if es != [] {
      var e := es[0];
      if IsCall(e) {
        CallRank(st, e);
      } else if Enabled(st, e) {
        if IsItem(e) {
          ItemRank(st, e);
        } else {
          StepLowersRank(st, e);
        }
      }
      ShutdownIsBounded(Step(st, e), es[1..]);
    }
  }

  function Live(c: Conn): nat {
    if c.phase == Exited then 0 else 1
  }

  function Lives(s: seq<Conn>): seq<nat> {
    seq(|s|, i requires 0 <= i < |s| => Live(s[i]))
  }

  /** What the goroutines can still hand over: one thing for each live handler, and an error of the acceptor. */
  function Pending(st: State): nat {
    Sum(Lives(st.conns)) + if st.acceptor.AcceptorReporting? then 1 else 0
  }

  predicate IsHandOver(e: Event) {
    e.HandlerSends? || e.AcceptorSends?
  }

  lemma LiveUpdate(s: seq<Conn>, i: nat, x: Conn)
    requires i < |s|
    ensures Sum(Lives(s[i := x])) + Live(s[i]) == Sum(Lives(s)) + Live(x)
  {
    SumUpdate(Lives(s), i, Live(x));
    assert Lives(s[i := x]) == Lives(s)[i := Live(x)];
  }

  lemma PendingAfter(st: State, e: Event)
    requires Enabled(st, e)
    ensures Pending(Step(st, e)) + (if IsHandOver(e) then 1 else 0) <= Pending(st) + if IsItem(e) then 1 else 0
  {
    if e.Handle? || e.HandlerSends? {
      LiveUpdate(st.conns, e.c, Step(st, e).conns[e.c]);
    } else if e.AcceptConn? {
      SumAppend(Lives(st.conns), 1);
      assert Lives(Step(st, e).conns) == Lives(st.conns) + [1];
    }
  }

  /** What Accept calls receive, connections and errors, other than net.ErrClosed. */
  function HandOvers(st: State, es: seq<Event>): nat
    decreases es
  {
    if es == [] then 0
    else (if Enabled(st, es[0]) && IsHandOver(es[0]) then 1 else 0) + HandOvers(Step(st, es[0]), es[1..])
  }

  /** However many Accept calls are made and whether it is closed or not, a listener hands over at most what its
      goroutines have in hand and what it still obtains. So a closed listener inside another one yields only so many
      late items, if the listeners below it do. */
  lemma {:induction false} HandOversAreBounded(st: State, es: seq<Event>)
    ensures HandOvers(st, es) + Pending(Exec(st, es)) <= Pending(st) + Items(st, es)
    decreases es
  {
    if es != [] {
      if Enabled(st, es[0]) {
        PendingAfter(st, es[0]);
      }
      HandOversAreBounded(Step(st, es[0]), es[1..]);
    }
  }

  /** Every goroutine has exited and every call has returned. */
  predicate Quiet(st: State) {
    && st.acceptor == AcceptorExited
    && (forall c :: 0 <= c < |st.conns| ==> st.conns[c].phase == Exited)
    && (forall a :: 0 <= a < |st.accepts| ==> st.accepts[a] != Waiting)
    && (forall k :: 0 <= k < |st.closers| ==> st.closers[k] in {Closed, RefusedClosed})
  }

  /** After Close nothing is ever stuck: until everything is quiet, some goroutine or call can step. */
  lemma NothingIsStuck(es: seq<Event>) returns (e: Event)
    requires IsClosed(Run(es)) && !Quiet(Run(es))
    ensures Enabled(Run(es), e) && IsOwnStep(e)
  {
    ReachableInv(es);
    var st := Run(es);
    if st.acceptor != AcceptorExited {
      e := if st.acceptor == Accepting then AcceptSeesClosed else AcceptorSeesDone;
    } else if c :| 0 <= c < |st.conns| && st.conns[c].phase != Exited {
      e := Handle(c, match st.conns[c].phase
        case SettingDeadline => SetDeadline(true)
        case Reading => Read(0)
        case ClearingDeadline(_) => ClearDeadline(true)
        case Failing(_) => CloseConn
        case Abandoning => CloseConn
        case _ => SeeDone);
    } else if a :| 0 <= a < |st.accepts| && st.accepts[a] == Waiting {
      e := AcceptSeesDone(a);
    } else {
      var k :| 0 <= k < |st.closers| && st.closers[k] !in {Closed, RefusedClosed};
      if st.mutex == None {
        e := Lock(k);
      } else {
        var holder := st.mutex.value;
        assert st.closers[holder] in {Checking, ClosingInner};
        e := if st.closers[holder] == Checking then CheckDone(holder) else CloseInner(holder);
      }
    }
  }

  /** When no step is left after Close but new calls and late items: no goroutine is left, every Accept has returned,
      and every connection ever obtained was delivered once or closed once, not both. */
  lemma ShutdownDrains(es: seq<Event>)
    requires IsClosed(Run(es))
    requires forall e :: Enabled(Run(es), e) ==> !IsOwnStep(e)
    ensures Quiet(Run(es)) && Rank(Run(es)) == 0
    ensures forall c :: 0 <= c < |Run(es).conns| ==> Run(es).conns[c].closes + Deliveries(Run(es).accepts, c) == 1
  {
    var st := Run(es);
    if !Quiet(st) {
      var e := NothingIsStuck(es);
    }
    SumZero(ConnRanks(st.conns));
    SumZero(AcceptRanks(st.accepts));
    SumZero(CloseRanks(st.closers));
    forall c | 0 <= c < |st.conns|
      ensures st.conns[c].closes + Deliveries(st.accepts, c) == 1
    {
      ConnectionsAreConserved(es, c);
    }
  }
}
