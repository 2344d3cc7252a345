/** proxy/listener.go: the goroutines of a PROXY protocol listener, as a transition system.

    One acceptor goroutine, one handler goroutine for each connection, any number of Accept and Close calls.
    A channel operation on the unbuffered channels is one joint step of a sender and a waiting Accept; a select
    takes any branch that is ready. */
module ProxyListener {
  import opened Prelude
  import opened ByteStream
  import opened ProxyHeader
  import opened ProxyHeaderTheorems

  /** A client: its own and our address, all it will ever send, and how its stream ends. */
  datatype Peer = Peer(self: Header, stream: Bytes, ending: ReadError)

  datatype AcceptError = InnerFailed | DeadlineFailed | HeaderFailed(cause: HeaderError)

  /** Where a handler goroutine is. */
  datatype Phase =
    | SettingDeadline
    | Reading
    | ClearingDeadline(header: Header)
    | Sending(header: Header)       // in sendConn
    | Failing(error: AcceptError)   // about to close the connection
    | Reporting(error: AcceptError) // in sendError
    | Abandoning                    // sendConn returned false: about to close the connection
    | Exited

  /** A connection obtained from the inner listener, with its handler. */
  datatype Conn = Conn(peer: Peer, phase: Phase, deadline: bool, unread: Bytes, closes: nat)

  datatype Acceptor = Accepting | AcceptorReporting(error: AcceptError) | AcceptorExited

  /** An Accept call: in its select, or returned. A delivered connection carries the addresses of its proxyConn; an
      error comes from the handler of a connection, or from the acceptor. */
  datatype AcceptCall =
    | Waiting
    | GotConn(conn: nat, addresses: Header)
    | GotError(from: Option<nat>, error: AcceptError)
    | GotClosed

  /** A Close call: waiting for the mutex, in its select, closing the inner listener, or returned; the call that
      closed the listener is told apart from the ones that returned net.ErrClosed. */
  datatype CloseCall = Locking | Checking | ClosingInner | Closed | RefusedClosed

  datatype State = State(
    done: bool,
    doneCloses: nat,
    innerOpen: bool,
    innerCloses: nat,
    mutex: Option<nat>,
    acceptor: Acceptor,
    conns: seq<Conn>,
    accepts: seq<AcceptCall>,
    closers: seq<CloseCall>)

  const INITIAL := State(false, 0, true, 0, None, Accepting, [], [], [])

  /** A step a handler takes on its own. */
  datatype Move = SetDeadline(ok: bool) | Read(arrived: nat) | ClearDeadline(ok: bool) | CloseConn | SeeDone

  datatype Event =
    // the environment
    | CallAccept
    | CallClose
    | InnerDies
    // the acceptor; an inner listener that has been closed may still yield something that was ready before
    | AcceptConn(peer: Peer)
    | AcceptFails
    | AcceptSeesClosed
    | AcceptorSends(a: nat)
    | AcceptorSeesDone
    // the handler of connection c: on its own, or handing something to Accept call a
    | Handle(c: nat, move: Move)
    | HandlerSends(c: nat, a: nat)
    // Accept call a and Close call k
    | AcceptSeesDone(a: nat)
    | Lock(k: nat)
    | CheckDone(k: nat)
    | CloseInner(k: nat)

  predicate IsCall(e: Event) {
    e.CallAccept? || e.CallClose? || e.InnerDies?
  }

  /** What the inner listener yields. */
  predicate IsItem(e: Event) {
    e.AcceptConn? || e.AcceptFails?
  }

  predicate CanMove(conn: Conn, move: Move, done: bool) {
    match move
    case SetDeadline(_) => conn.phase.SettingDeadline?
    case Read(_) => conn.phase.Reading?
    case ClearDeadline(_) => conn.phase.ClearingDeadline?
    case CloseConn => conn.phase.Failing? || conn.phase.Abandoning?
    case SeeDone => (conn.phase.Sending? || conn.phase.Reporting?) && done
  }

  predicate IsWaiting(st: State, a: nat) {
    a < |st.accepts| && st.accepts[a] == Waiting
  }

  predicate IsAt(st: State, k: nat, at: CloseCall) {
    k < |st.closers| && st.closers[k] == at
  }

  predicate Enabled(st: State, e: Event) {
    match e
    case CallAccept => true
    case CallClose => true
    case InnerDies => true
    case AcceptConn(_) => st.acceptor == Accepting
    case AcceptFails => st.acceptor == Accepting
    case AcceptSeesClosed => st.acceptor == Accepting && !st.innerOpen
    case AcceptorSends(a) => st.acceptor.AcceptorReporting? && IsWaiting(st, a)
    case AcceptorSeesDone => st.acceptor.AcceptorReporting? && st.done
    case Handle(c, move) => c < |st.conns| && CanMove(st.conns[c], move, st.done)
    case HandlerSends(c, a) =>
      c < |st.conns| && (st.conns[c].phase.Sending? || st.conns[c].phase.Reporting?) && IsWaiting(st, a)
    case AcceptSeesDone(a) => IsWaiting(st, a) && st.done
    case Lock(k) => IsAt(st, k, Locking) && st.mutex == None
    case CheckDone(k) => IsAt(st, k, Checking)
    case CloseInner(k) => IsAt(st, k, ClosingInner)
  }

  /** ReadHeader when `arrived` bytes come before the deadline: waiting for a later byte ends in a timeout. */
  function ReadStep(conn: Conn, arrived: nat): Conn {
    var seen := Take(conn.peer.stream, arrived);
    var late := conn.peer.stream[|seen|..];
    var o := Decode(conn.peer.self, seen, if late == [] then conn.peer.ending else Timeout);
    match o.result
    case Ok(header) => conn.(phase := ClearingDeadline(header), unread := o.rest + late)
    case Err(cause) => conn.(phase := Failing(HeaderFailed(cause)), unread := o.rest + late)
  }

  function HandlerStep(conn: Conn, move: Move, done: bool): Conn
    requires CanMove(conn, move, done)
  {
    match move
    case SetDeadline(ok) =>
      if ok then conn.(phase := Reading, deadline := true) else conn.(phase := Failing(DeadlineFailed))
    case Read(arrived) => ReadStep(conn, arrived)
    case ClearDeadline(ok) =>
      if ok then conn.(phase := Sending(conn.phase.header), deadline := false)
      else conn.(phase := Failing(DeadlineFailed))
    case CloseConn =>
      if conn.phase.Failing? then conn.(phase := Reporting(conn.phase.error), closes := conn.closes + 1)
      else conn.(phase := Exited, closes := conn.closes + 1)
    case SeeDone => conn.(phase := if conn.phase.Sending? then Abandoning else Exited)
  }

  /** What an Accept call receives from a handler in sendConn or sendError. */
  function Handed(c: nat, conn: Conn): AcceptCall
    requires conn.phase.Sending? || conn.phase.Reporting?
  {
    if conn.phase.Sending? then GotConn(c, conn.phase.header) else GotError(Some(c), conn.phase.error)
  }

  function Do(st: State, e: Event): State
    requires Enabled(st, e)
  {
    match e
    case CallAccept => st.(accepts := st.accepts + [Waiting])
    case CallClose => st.(closers := st.closers + [Locking])
    case InnerDies => st.(innerOpen := false)
    case AcceptConn(peer) => st.(conns := st.conns + [Conn(peer, SettingDeadline, false, peer.stream, 0)])
    case AcceptFails => st.(acceptor := AcceptorReporting(InnerFailed))
    case AcceptSeesClosed => st.(acceptor := AcceptorExited)
    case AcceptorSends(a) => st.(accepts := st.accepts[a := GotError(None, st.acceptor.error)], acceptor := Accepting)
    case AcceptorSeesDone => st.(acceptor := AcceptorExited)
    case Handle(c, move) => st.(conns := st.conns[c := HandlerStep(st.conns[c], move, st.done)])
    case HandlerSends(c, a) =>
      st.(accepts := st.accepts[a := Handed(c, st.conns[c])], conns := st.conns[c := st.conns[c].(phase := Exited)])
    case AcceptSeesDone(a) => st.(accepts := st.accepts[a := GotClosed])
    case Lock(k) => st.(mutex := Some(k), closers := st.closers[k := Checking])
    case CheckDone(k) =>
      if st.done then st.(mutex := None, closers := st.closers[k := RefusedClosed])
      else st.(done := true, doneCloses := st.doneCloses + 1, closers := st.closers[k := ClosingInner])
    case CloseInner(k) =>
      st.(innerOpen := false, innerCloses := st.innerCloses + 1, mutex := None, closers := st.closers[k := Closed])
  }

  function Step(st: State, e: Event): State {
    if Enabled(st, e) then Do(st, e) else st
  }

  function Exec(st: State, es: seq<Event>): State
    decreases es
  {
    if es == [] then st else Exec(Step(st, es[0]), es[1..])
  }

  function Run(es: seq<Event>): State {
    Exec(INITIAL, es)
  }

  // ---------------------------------------------------------------- the invariant

  /** The bytes read from a connection so far. */
  function Seen(conn: Conn): Bytes
    requires |conn.unread| <= |conn.peer.stream|
  {
    conn.peer.stream[..|conn.peer.stream| - |conn.unread|]
  }

  /** What a reader meets after those bytes: the end of the stream, or the deadline. */
  function SeenEnding(conn: Conn): ReadError {
    if conn.unread == [] then conn.peer.ending else Timeout
  }

  predicate IsCutShort(seen: Bytes) {
    |seen| < 16 || |seen| < HeaderSize(seen)
  }

  /** Why the header of a connection is refused with this error: exactly the bytes seen give it. For all but a failed
      read these are a whole header, which the whole stream gives the same verdict on; a failed read saw less. */
  predicate HeaderRefused(conn: Conn, cause: HeaderError) {
    && |conn.unread| <= |conn.peer.stream|
    && Decode(conn.peer.self, Seen(conn), SeenEnding(conn)) == Outcome(Err(cause), [])
    && if cause.ReadFailed? then IsCutShort(Seen(conn))
       else Decode(conn.peer.self, conn.peer.stream, conn.peer.ending) == Outcome(Err(cause), conn.unread)
  }

  /** A handler reports the error that the client's stream really causes, or one of its deadline. */
  predicate Justified(conn: Conn, e: AcceptError) {
    match e
    case InnerFailed => false
    case DeadlineFailed => true
    case HeaderFailed(cause) => HeaderRefused(conn, cause)
  }

  /** What a handler owes its connection: it holds it open, has closed it, or has handed it over. */
  predicate HandlerInv(conn: Conn) {
    var whole := Decode(conn.peer.self, conn.peer.stream, conn.peer.ending);
    match conn.phase
    case SettingDeadline => conn.closes == 0 && conn.unread == conn.peer.stream
    case Reading => conn.closes == 0 && conn.unread == conn.peer.stream && conn.deadline
    case ClearingDeadline(h) => conn.closes == 0 && whole == Outcome(Ok(h), conn.unread)
    case Sending(h) => conn.closes == 0 && whole == Outcome(Ok(h), conn.unread) && !conn.deadline
    case Failing(e) => conn.closes == 0 && Justified(conn, e)
    case Abandoning => conn.closes == 0 && whole.result.Ok?
    case Reporting(e) => conn.closes == 1 && Justified(conn, e)
    case Exited =>
      conn.closes == 1
      || (conn.closes == 0 && whole.result.Ok? && whole.rest == conn.unread && !conn.deadline)
  }

  predicate HandedOver(conn: Conn) {
    conn.phase == Exited && conn.closes == 0
  }

  /** How many Accept calls have returned connection c. */
  function Deliveries(accepts: seq<AcceptCall>, c: nat): nat {
    if accepts == [] then 0
    else (if accepts[0].GotConn? && accepts[0].conn == c then 1 else 0) + Deliveries(accepts[1..], c)
  }

  /** What an Accept call has returned belongs to one connection, or is an error of the inner listener. */
  predicate AcceptInv(conns: seq<Conn>, a: AcceptCall) {
    match a
    case GotConn(c, addresses) =>
      && c < |conns|
      && HandedOver(conns[c])
      && Decode(conns[c].peer.self, conns[c].peer.stream, conns[c].peer.ending).result == Ok(addresses)
    case GotError(None, e) => e == InnerFailed
    case GotError(Some(c), e) =>
      c < |conns| && conns[c].phase == Exited && conns[c].closes == 1 && Justified(conns[c], e)
    case _ => true
  }

  /** Two Accept calls have returned the report of the same handler. */
  predicate SameReport(x: AcceptCall, y: AcceptCall) {
    x.GotError? && y.GotError? && x.from.Some? && x.from == y.from
  }

  predicate AcceptsInv(conns: seq<Conn>, accepts: seq<AcceptCall>) {
    && (forall a :: 0 <= a < |accepts| ==> AcceptInv(conns, accepts[a]))
    && (forall a, b :: 0 <= a < b < |accepts| ==> !SameReport(accepts[a], accepts[b]))
  }

  predicate ConnsInv(conns: seq<Conn>, accepts: seq<AcceptCall>) {
    && (forall c :: 0 <= c < |conns| ==> HandlerInv(conns[c]))
    && (forall c :: 0 <= c < |conns| ==> Deliveries(accepts, c) == if HandedOver(conns[c]) then 1 else 0)
  }

  /** Calls that found the listener open. */
  function Winners(closers: seq<CloseCall>): nat {
    if closers == [] then 0
    else (if closers[0].ClosingInner? || closers[0].Closed? then 1 else 0) + Winners(closers[1..])
  }

  function Finished(closers: seq<CloseCall>): nat {
    if closers == [] then 0 else (if closers[0].Closed? then 1 else 0) + Finished(closers[1..])
  }

  predicate CloseInv(st: State) {
    && (forall k :: 0 <= k < |st.closers| ==> (st.closers[k] in {Checking, ClosingInner} <==> st.mutex == Some(k)))
    && (st.mutex.Some? ==> st.mutex.value < |st.closers|)
    && st.doneCloses == Winners(st.closers) == (if st.done then 1 else 0)
    && st.innerCloses == Finished(st.closers)
    && (forall k :: 0 <= k < |st.closers| && st.closers[k] == RefusedClosed ==> st.done)
    && (st.innerCloses > 0 ==> !st.innerOpen)
  }

  predicate Inv(st: State) {
    && ConnsInv(st.conns, st.accepts)
    && AcceptsInv(st.conns, st.accepts)
    && (st.acceptor.AcceptorReporting? ==> st.acceptor.error == InnerFailed)
    && CloseInv(st)
  }

  // ---------------------------------------------------------------- counting

  lemma {:induction false} DeliveriesAppend(s: seq<AcceptCall>, x: AcceptCall, c: nat)
    ensures Deliveries(s + [x], c) == Deliveries(s, c) + if x.GotConn? && x.conn == c then 1 else 0
  {
    if s != [] {
      DeliveriesAppend(s[1..], x, c);
      assert (s + [x])[1..] == s[1..] + [x];
    }
  }

  lemma {:induction false} DeliveriesUpdate(s: seq<AcceptCall>, a: nat, x: AcceptCall, c: nat)
    requires a < |s| && s[a] == Waiting
    ensures Deliveries(s[a := x], c) == Deliveries(s, c) + if x.GotConn? && x.conn == c then 1 else 0
  {
    var t := s[a := x];
    if a == 0 {
      assert t[1..] == s[1..];
    } else {
      DeliveriesUpdate(s[1..], a - 1, x, c);
      assert t[1..] == s[1..][a - 1 := x];
    }
  }

  lemma {:induction false} NoDelivery(s: seq<AcceptCall>, c: nat)
    requires forall a :: 0 <= a < |s| && s[a].GotConn? ==> s[a].conn != c
    ensures Deliveries(s, c) == 0
  {
    if s != [] {
      NoDelivery(s[1..], c);
    }
  }

  lemma {:induction false} ClosersAppend(s: seq<CloseCall>)
    ensures Winners(s + [Locking]) == Winners(s) && Finished(s + [Locking]) == Finished(s)
  {
    if s != [] {
      ClosersAppend(s[1..]);
      assert (s + [Locking])[1..] == s[1..] + [Locking];
    }
  }

  lemma {:induction false} ClosersUpdate(s: seq<CloseCall>, k: nat, x: CloseCall)
    requires k < |s|
    ensures Winners(s[k := x]) == Winners(s) - Winners([s[k]]) + Winners([x])
    ensures Finished(s[k := x]) == Finished(s) - Finished([s[k]]) + Finished([x])
  {
    var t := s[k := x];
    if k == 0 {
      assert t[1..] == s[1..];
    } else {
      ClosersUpdate(s[1..], k - 1, x);
      assert t[1..] == s[1..][k - 1 := x];
    }
  }

  // ---------------------------------------------------------------- every step keeps the invariant

  lemma SliceOfPrefix(s: Bytes, n: nat, i: nat, j: nat)
    requires i <= j <= n <= |s|
    ensures s[..n][i..j] == s[i..j]
  {
  }

  /** A decided verdict is already that on the header alone. */
  lemma HeaderAlone(self: Header, stream: Bytes, ending: ReadError, ending': ReadError)
    requires Decided(Decode(self, stream, ending))
    ensures !IsCutShort(stream)
    ensures Decode(self, stream[..HeaderSize(stream)], ending') == Outcome(Decode(self, stream, ending).result, [])
  {
    ByteAccounting(self, stream, ending);
    var n := HeaderSize(stream);
    var code := stream[..n];
    SliceOfPrefix(stream, n, 0, 12);
    SliceOfPrefix(stream, n, 14, 16);
    SliceOfPrefix(stream, n, 16, n);
    assert code[n..] == [];
  }

  /** A read that came to an end within the bytes that arrived in time. */
  lemma DecidedRead(conn: Conn, seen: Bytes, late: Bytes, ending: ReadError)
    requires conn.peer.stream == seen + late
    requires var o := Decode(conn.peer.self, seen, ending);
             Decided(o) && conn.unread == o.rest + late
    ensures |conn.unread| <= |conn.peer.stream|
    ensures var o := Decode(conn.peer.self, seen, ending);
            && Decode(conn.peer.self, conn.peer.stream, conn.peer.ending) == Outcome(o.result, conn.unread)
            && Decode(conn.peer.self, Seen(conn), SeenEnding(conn)) == Outcome(o.result, [])
  {
    ByteAccounting(conn.peer.self, seen, ending);
    NoReadAhead(conn.peer.self, seen, ending, late, conn.peer.ending);
    HeaderAlone(conn.peer.self, seen, ending, SeenEnding(conn));
    assert Seen(conn) == seen[..HeaderSize(seen)];
  }

  /** A read that met the end of the stream or the deadline. */
  lemma FailedRead(conn: Conn, seen: Bytes, late: Bytes)
    requires conn.peer.stream == seen + late
    requires var o := Decode(conn.peer.self, seen, if late == [] then conn.peer.ending else Timeout);
             !Decided(o) && conn.unread == o.rest + late
    ensures var o := Decode(conn.peer.self, seen, if late == [] then conn.peer.ending else Timeout);
            HeaderRefused(conn, o.result.error)
  {
    ByteAccounting(conn.peer.self, seen, if late == [] then conn.peer.ending else Timeout);
    assert conn.unread == late;
    assert Seen(conn) == seen;
  }

  lemma ReadStepKeepsInv(conn: Conn, arrived: nat)
    requires HandlerInv(conn) && conn.phase.Reading?
    ensures HandlerInv(ReadStep(conn, arrived))
  {
    var seen := Take(conn.peer.stream, arrived);
    var late := conn.peer.stream[|seen|..];
    var ending := if late == [] then conn.peer.ending else Timeout;
    var after := ReadStep(conn, arrived);
    assert seen + late == conn.peer.stream;
    if Decided(Decode(conn.peer.self, seen, ending)) {
      DecidedRead(after, seen, late, ending);
    } else {
      FailedRead(after, seen, late);
    }
  }

  lemma HandlerStepKeepsInv(conn: Conn, move: Move, done: bool)
    requires HandlerInv(conn) && CanMove(conn, move, done)
    ensures HandlerInv(HandlerStep(conn, move, done)) && !HandedOver(HandlerStep(conn, move, done))
  {
    if move.Read? {
      ReadStepKeepsInv(conn, move.arrived);
    }
  }

  /** A handler that has not exited has been reported or delivered by nobody, so its steps disturb no result. */
  lemma ConnStepKeepsInv(st: State, c: nat, conn: Conn)
    requires Inv(st) && c < |st.conns| && st.conns[c].phase != Exited
    requires HandlerInv(conn) && !HandedOver(conn)
    ensures Inv(st.(conns := st.conns[c := conn]))
  {
    var conns := st.conns[c := conn];
    forall a | 0 <= a < |st.accepts|
      ensures AcceptInv(conns, st.accepts[a])
    {
      assert AcceptInv(st.conns, st.accepts[a]);
    }
  }

  lemma AcceptStepKeepsInv(st: State, a: nat, x: AcceptCall)
    requires Inv(st) && IsWaiting(st, a) && !x.GotConn? && AcceptInv(st.conns, x)
    requires forall b :: 0 <= b < |st.accepts| ==> !SameReport(st.accepts[b], x)
    ensures Inv(st.(accepts := st.accepts[a := x]))
  {
    forall c | 0 <= c < |st.conns| {
      DeliveriesUpdate(st.accepts, a, x, c);
    }
  }

  lemma DeliveryCounts(st: State, c: nat, a: nat)
    requires Inv(st) && Enabled(st, HandlerSends(c, a)) && st.conns[c].phase.Sending?
    ensures ConnsInv(Do(st, HandlerSends(c, a)).conns, Do(st, HandlerSends(c, a)).accepts)
  {
    var st' := Do(st, HandlerSends(c, a));
    assert HandlerInv(st.conns[c]);
    forall d | 0 <= d < |st.conns| {
      DeliveriesUpdate(st.accepts, a, st'.accepts[a], d);
    }
  }

  lemma DeliveryKeepsInv(st: State, c: nat, a: nat)
    requires Inv(st) && Enabled(st, HandlerSends(c, a)) && st.conns[c].phase.Sending?
    ensures Inv(Do(st, HandlerSends(c, a)))
  {
    var st' := Do(st, HandlerSends(c, a));
    DeliveryCounts(st, c, a);
    assert HandlerInv(st.conns[c]);
    forall b | 0 <= b < |st'.accepts|
      ensures AcceptInv(st'.conns, st'.accepts[b])
    {
      assert AcceptInv(st.conns, st.accepts[b]);
    }
  }

  lemma ReportKeepsInv(st: State, c: nat, a: nat)
    requires Inv(st) && Enabled(st, HandlerSends(c, a)) && st.conns[c].phase.Reporting?
    ensures Inv(Do(st, HandlerSends(c, a)))
  {
    var conn := st.conns[c].(phase := Exited);
    var report := Handed(c, st.conns[c]);
    assert HandlerInv(st.conns[c]);
    forall b | 0 <= b < |st.accepts|
      ensures !SameReport(st.accepts[b], report)
    {
      assert AcceptInv(st.conns, st.accepts[b]);
    }
    ConnStepKeepsInv(st, c, conn);
    AcceptStepKeepsInv(st.(conns := st.conns[c := conn]), a, report);
  }

  lemma HandlerEventKeepsInv(st: State, e: Event)
    requires Inv(st) && Enabled(st, e) && (e.Handle? || e.HandlerSends?)
    ensures Inv(Do(st, e))
  {
    if e.Handle? {
      HandlerStepKeepsInv(st.conns[e.c], e.move, st.done);
      ConnStepKeepsInv(st, e.c, HandlerStep(st.conns[e.c], e.move, st.done));
    } else if st.conns[e.c].phase.Sending? {
      DeliveryKeepsInv(st, e.c, e.a);
    } else {
      ReportKeepsInv(st, e.c, e.a);
    }
  }

  lemma AcceptConnKeepsInv(st: State, peer: Peer)
    requires Inv(st) && Enabled(st, AcceptConn(peer))
    ensures Inv(Do(st, AcceptConn(peer)))
  {
    var conns := Do(st, AcceptConn(peer)).conns;
    forall a | 0 <= a < |st.accepts|
      ensures AcceptInv(conns, st.accepts[a])
      ensures st.accepts[a].GotConn? ==> st.accepts[a].conn != |st.conns|
    {
      assert AcceptInv(st.conns, st.accepts[a]);
    }
    NoDelivery(st.accepts, |st.conns|);
  }

  lemma CallAcceptKeepsInv(st: State)
    requires Inv(st)
    ensures Inv(Do(st, CallAccept))
  {
    forall c | 0 <= c < |st.conns| {
      DeliveriesAppend(st.accepts, Waiting, c);
    }
  }

  lemma CloseStepKeepsInv(st: State, e: Event)
    requires CloseInv(st) && Enabled(st, e)
    requires e.CallClose? || e.Lock? || e.CheckDone? || e.CloseInner?
    ensures CloseInv(Do(st, e))
  {
    if e.CallClose? {
      ClosersAppend(st.closers);
    } else {
      ClosersUpdate(st.closers, e.k, Do(st, e).closers[e.k]);
    }
  }

  lemma AcceptorSendKeepsInv(st: State, a: nat)
    requires Inv(st) && Enabled(st, AcceptorSends(a))
    ensures Inv(Do(st, AcceptorSends(a)))
  {
    AcceptStepKeepsInv(st, a, GotError(None, st.acceptor.error));
  }

  lemma AcceptorKeepsInv(st: State, e: Event)
    requires Inv(st) && Enabled(st, e)
    requires e.InnerDies? || e.AcceptFails? || e.AcceptSeesClosed? || e.AcceptorSeesDone?
    ensures Inv(Do(st, e))
  {
  }

  lemma StepKeepsInv(st: State, e: Event)
    requires Inv(st)
    ensures Inv(Step(st, e))
  {
    if Enabled(st, e) {
      if e.Handle? || e.HandlerSends? {
        HandlerEventKeepsInv(st, e);
      } else if e.CallClose? || e.Lock? || e.CheckDone? || e.CloseInner? {
        CloseStepKeepsInv(st, e);
      } else {
        match e {
          case CallAccept => CallAcceptKeepsInv(st);
          case AcceptConn(peer) => AcceptConnKeepsInv(st, peer);
          case AcceptorSends(a) => AcceptorSendKeepsInv(st, a);
          case AcceptSeesDone(a) => AcceptStepKeepsInv(st, a, GotClosed);
          case _ => AcceptorKeepsInv(st, e);
        }
      }
    }
  }

  lemma {:induction false} ExecKeepsInv(st: State, es: seq<Event>)
    requires Inv(st)
    ensures Inv(Exec(st, es))
    decreases es
  {
    if es != [] {
      StepKeepsInv(st, es[0]);
      ExecKeepsInv(Step(st, es[0]), es[1..]);
    }
  }
}
