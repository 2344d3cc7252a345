/** multi.go: several listeners merged into one, as a transition system.

    One loop for each inner listener, any number of Accept and Close calls; a channel operation is one joint step of
    a loop and a waiting Accept, and a select takes any branch that is ready. */
module MultiListener {
  import opened Prelude

  /** What an inner Accept returns, other than net.ErrClosed. */
  datatype Item = Conn(id: nat) | Failure(code: nat)

  /** Where the loop of one inner listener is; in Offering and Closing it has its last item in hand. */
  datatype Phase = Accepting | Offering | Closing | Exited

  /** An inner listener with its loop: everything the loop has obtained, and how many connections it has closed. */
  datatype Source = Source(phase: Phase, obtained: seq<Item>, closes: nat, open: bool, listenerCloses: nat)

  /** The merged history: which loop handed over which item, in order. */
  datatype Delivery = Delivery(source: nat, item: Item)

  /** An Accept call: in its select, or returned with one entry of the history. */
  datatype AcceptCall = Waiting | Got(position: nat) | GotClosed

  datatype CloseCall = Locking | Checking | ClosingListeners(next: nat) | Closed | RefusedClosed

  datatype State = State(
    closed: bool,
    mutex: Option<nat>,
    sources: seq<Source>,
    history: seq<Delivery>,
    accepts: seq<AcceptCall>,
    closers: seq<CloseCall>)

  /** MultiListener(listeners...): every loop starts. */
  function Initial(n: nat): State {
    State(false, None, seq(n, _ => Source(Accepting, [], 0, true, 0)), [], [], [])
  }

  datatype Event =
    // the environment
    | CallAccept
    | CallClose
    | InnerDies(i: nat)
    // the loop of source i, on its own or with Accept call a; a closed inner listener may still yield what was ready
    | Obtain(i: nat, item: Item)
    | SeeInnerClosed(i: nat)
    | Send(i: nat, a: nat)
    | SendSeesClosed(i: nat)
    | CloseConn(i: nat)
    // Accept call a and Close call k
    | AcceptSeesClosed(a: nat)
    | Lock(k: nat)
    | CheckClosed(k: nat)
    | CloseNext(k: nat)

  predicate IsCall(e: Event) {
    e.CallAccept? || e.CallClose? || e.InnerDies?
  }

  predicate At(st: State, i: nat, phase: Phase) {
    i < |st.sources| && st.sources[i].phase == phase && (phase in {Offering, Closing} ==> st.sources[i].obtained != [])
  }

  predicate IsWaiting(st: State, a: nat) {
    a < |st.accepts| && st.accepts[a] == Waiting
  }

  function InHand(s: Source): Item
    requires s.obtained != []
  {
    s.obtained[|s.obtained| - 1]
  }

  predicate Enabled(st: State, e: Event) {
    match e
    case CallAccept => true
    case CallClose => true
    case InnerDies(i) => i < |st.sources|
    case Obtain(i, _) => At(st, i, Accepting)
    case SeeInnerClosed(i) => At(st, i, Accepting) && !st.sources[i].open
    case Send(i, a) => At(st, i, Offering) && IsWaiting(st, a)
    case SendSeesClosed(i) => At(st, i, Offering) && st.closed
    case CloseConn(i) => At(st, i, Closing)
    case AcceptSeesClosed(a) => IsWaiting(st, a) && st.closed
    case Lock(k) => k < |st.closers| && st.closers[k] == Locking && st.mutex == None
    case CheckClosed(k) => k < |st.closers| && st.closers[k] == Checking
    case CloseNext(k) => k < |st.closers| && st.closers[k].ClosingListeners?
  }

  function SetSource(st: State, i: nat, s: Source): State
    requires i < |st.sources|
  {
    st.(sources := st.sources[i := s])
  }

  function Do(st: State, e: Event): State
    requires Enabled(st, e)
  {
    match e
    case CallAccept => st.(accepts := st.accepts + [Waiting])
    case CallClose => st.(closers := st.closers + [Locking])
    case InnerDies(i) => SetSource(st, i, st.sources[i].(open := false))
    case Obtain(i, item) =>
      SetSource(st, i, st.sources[i].(phase := Offering, obtained := st.sources[i].obtained + [item]))
    case SeeInnerClosed(i) => SetSource(st, i, st.sources[i].(phase := Exited))
    case Send(i, a) =>
      SetSource(st, i, st.sources[i].(phase := Accepting)).(
        history := st.history + [Delivery(i, InHand(st.sources[i]))],
        accepts := st.accepts[a := Got(|st.history|)])
    case SendSeesClosed(i) =>
      SetSource(st, i, st.sources[i].(phase := if InHand(st.sources[i]).Conn? then Closing else Exited))
    case CloseConn(i) => SetSource(st, i, st.sources[i].(phase := Exited, closes := st.sources[i].closes + 1))
    case AcceptSeesClosed(a) => st.(accepts := st.accepts[a := GotClosed])
    case Lock(k) => st.(mutex := Some(k), closers := st.closers[k := Checking])
    case CheckClosed(k) =>
      if st.closed then st.(mutex := None, closers := st.closers[k := RefusedClosed])
      else st.(closed := true, closers := st.closers[k := ClosingListeners(0)])
    case CloseNext(k) =>
      var i := st.closers[k].next;
      if i < |st.sources| then
        SetSource(st, i, st.sources[i].(open := false, listenerCloses := st.sources[i].listenerCloses + 1)).(
          closers := st.closers[k := ClosingListeners(i + 1)])
      else st.(mutex := None, closers := st.closers[k := Closed])
  }

  function Step(st: State, e: Event): State {
    if Enabled(st, e) then Do(st, e) else st
  }

  function Exec(st: State, es: seq<Event>): State
    decreases es
  {
    if es == [] then st else Exec(Step(st, es[0]), es[1..])
  }

  function Run(n: nat, es: seq<Event>): State {
    Exec(Initial(n), es)
  }

  // ---------------------------------------------------------------- the invariant

  /** What the merged history contains from one source. */
  function Projection(history: seq<Delivery>, i: nat): seq<Item> {
    if history == [] then []
    else
      var n := |history| - 1;
      Projection(history[..n], i) + if history[n].source == i then [history[n].item] else []
  }

  /** All but the item in hand. */
  function ButLast(items: seq<Item>): seq<Item>
    requires items != []
  {
    items[..|items| - 1]
  }

  predicate SourceInv(s: Source, delivered: seq<Item>, closed: bool) {
    match s.phase
    case Accepting => delivered == s.obtained && s.closes == 0
    case Offering => s.obtained != [] && delivered == ButLast(s.obtained) && s.closes == 0
    case Closing => s.obtained != [] && delivered == ButLast(s.obtained) && s.closes == 0 && InHand(s).Conn? && closed
    case Exited =>
      || (delivered == s.obtained && s.closes == 0 && !s.open)
      || (s.obtained != [] && delivered == ButLast(s.obtained) && closed
          && s.closes == if InHand(s).Conn? then 1 else 0)
  }

  /** Position p of the history is the result of exactly one Accept call. */
  predicate TakenOnce(st: State, p: nat) {
    multiset(st.accepts)[Got(p)] == if p < |st.history| then 1 else 0
  }

  /** Listeners are closed in order by the one Close call that found the listener open. */
  function ClosedBy(c: CloseCall, n: nat): nat {
    match c
    case ClosingListeners(next) => next
    case Closed => n
    case _ => 0
  }

  predicate IsWinner(c: CloseCall) {
    c.ClosingListeners? || c.Closed?
  }

  ghost predicate CloseInv(st: State) {
    && (forall k :: 0 <= k < |st.closers| ==>
          (st.closers[k] == Checking || st.closers[k].ClosingListeners? <==> st.mutex == Some(k)))
    && (st.mutex.Some? ==> st.mutex.value < |st.closers|)
    && (forall k :: 0 <= k < |st.closers| && st.closers[k].ClosingListeners? ==> st.closers[k].next <= |st.sources|)
    && (forall k :: 0 <= k < |st.closers| && st.closers[k] == RefusedClosed ==> st.closed)
    && (if st.closed then
          exists w :: Won(st, w)
        else
          (forall k :: 0 <= k < |st.closers| ==> !IsWinner(st.closers[k]))
          && (forall i :: 0 <= i < |st.sources| ==> st.sources[i].listenerCloses == 0))
  }

  /** Close call w is the only winner, and has closed exactly the first ClosedBy listeners, once each. */
  predicate Won(st: State, w: int) {
    && 0 <= w < |st.closers|
    && (forall k :: 0 <= k < |st.closers| ==> (IsWinner(st.closers[k]) <==> k == w))
    && (forall i :: 0 <= i < |st.sources| ==>
          && st.sources[i].listenerCloses == (if i < ClosedBy(st.closers[w], |st.sources|) then 1 else 0)
          && (st.sources[i].listenerCloses > 0 ==> !st.sources[i].open))
  }

  ghost predicate Inv(st: State) {
    && (forall i :: 0 <= i < |st.sources| ==> SourceInv(st.sources[i], Projection(st.history, i), st.closed))
    && (forall p: nat :: TakenOnce(st, p))
    && (forall a :: 0 <= a < |st.accepts| && st.accepts[a].Got? ==> st.accepts[a].position < |st.history|)
    && CloseInv(st)
  }

  // ---------------------------------------------------------------- every step keeps the invariant

  lemma ProjectionAppend(history: seq<Delivery>, d: Delivery, i: nat)
    ensures Projection(history + [d], i) == Projection(history, i) + if d.source == i then [d.item] else []
  {
    assert (history + [d])[..|history|] == history;
  }

  lemma SendKeepsInv(st: State, i: nat, a: nat)
    requires Inv(st) && Enabled(st, Send(i, a))
    ensures Inv(Do(st, Send(i, a)))
  {
    var st' := Do(st, Send(i, a));
    forall j | 0 <= j < |st.sources|
      ensures SourceInv(st'.sources[j], Projection(st'.history, j), st'.closed)
    {
      assert SourceInv(st.sources[j], Projection(st.history, j), st.closed);
      ProjectionAppend(st.history, Delivery(i, InHand(st.sources[i])), j);
    }
    forall p: nat
      ensures TakenOnce(st', p)
    {
      assert TakenOnce(st, p);
    }
    CloseStateKept(st, st');
  }

  /** CloseInv looks only at the Close calls and at which listeners they have closed. */
  lemma CloseStateKept(st: State, st': State)
    requires CloseInv(st)
    requires st'.closed == st.closed && st'.mutex == st.mutex && st'.closers == st.closers
    requires |st'.sources| == |st.sources|
    requires forall i :: 0 <= i < |st.sources| ==>
               && st'.sources[i].listenerCloses == st.sources[i].listenerCloses
               && (st'.sources[i].open ==> st.sources[i].open)
    ensures CloseInv(st')
  {
    if st.closed {
      var w :| Won(st, w);
      assert Won(st', w);
    }
  }

  /** A step of one loop on its own. */
  lemma SourceStepKeepsInv(st: State, i: nat, s: Source)
    requires Inv(st) && i < |st.sources|
    requires SourceInv(s, Projection(st.history, i), st.closed)
    requires s.listenerCloses == st.sources[i].listenerCloses && (s.open ==> st.sources[i].open)
    ensures Inv(SetSource(st, i, s))
  {
    var st' := SetSource(st, i, s);
    forall p: nat
      ensures TakenOnce(st', p)
    {
      assert TakenOnce(st, p);
    }
    CloseStateKept(st, st');
  }

  lemma AcceptStepKeepsInv(st: State, accepts: seq<AcceptCall>)
    requires Inv(st)
    requires accepts == st.accepts + [Waiting]
             || exists a :: 0 <= a < |st.accepts| && st.accepts[a] == Waiting && accepts == st.accepts[a := GotClosed]
    ensures Inv(st.(accepts := accepts))
  {
    var st' := st.(accepts := accepts);
    forall p: nat
      ensures TakenOnce(st', p)
    {
      assert TakenOnce(st, p);
    }
    CloseStateKept(st, st');
  }

  /** A Close call that has the mutex closes the next inner listener, or is done. */
  lemma CloseNextKeepsInv(st: State, k: nat)
    requires CloseInv(st) && Enabled(st, CloseNext(k))
    ensures CloseInv(Do(st, CloseNext(k)))
  {
    var w :| Won(st, w);
    assert IsWinner(st.closers[k]);
    assert Won(Do(st, CloseNext(k)), w);
  }

  lemma CheckClosedKeepsInv(st: State, k: nat)
    requires CloseInv(st) && Enabled(st, CheckClosed(k))
    ensures CloseInv(Do(st, CheckClosed(k)))
  {
    if st.closed {
      var w :| Won(st, w);
      assert Won(Do(st, CheckClosed(k)), w);
    } else {
      assert Won(Do(st, CheckClosed(k)), k);
    }
  }

  lemma CloseStepKeepsInv(st: State, e: Event)
    requires CloseInv(st) && Enabled(st, e)
    requires e.CallClose? || e.Lock? || e.CheckClosed? || e.CloseNext?
    ensures CloseInv(Do(st, e))
  {
    if e.CloseNext? {
      CloseNextKeepsInv(st, e.k);
    } else if e.CheckClosed? {
      CheckClosedKeepsInv(st, e.k);
    } else if st.closed {
      var w :| Won(st, w);
      assert Won(Do(st, e), w);
    }
  }

  lemma CallsKeepRest(st: State, e: Event)
    requires Inv(st) && Enabled(st, e)
    requires e.CallClose? || e.Lock? || e.CheckClosed? || e.CloseNext?
    ensures Inv(Do(st, e))
  {
    var st' := Do(st, e);
    CloseStepKeepsInv(st, e);
    forall p: nat
      ensures TakenOnce(st', p)
    {
      assert TakenOnce(st, p);
    }
    forall i | 0 <= i < |st.sources|
      ensures SourceInv(st'.sources[i], Projection(st'.history, i), st'.closed)
    {
      assert SourceInv(st.sources[i], Projection(st.history, i), st.closed);
    }
  }

  predicate IsLoopStep(e: Event) {
    e.InnerDies? || e.Obtain? || e.SeeInnerClosed? || e.SendSeesClosed? || e.CloseConn?
  }

  lemma LoopStepKeepsInv(st: State, e: Event)
    requires Inv(st) && Enabled(st, e) && IsLoopStep(e)
    ensures Inv(Do(st, e))
  {
    var s, i := Do(st, e).sources[e.i], e.i;
    assert SourceInv(st.sources[i], Projection(st.history, i), st.closed);
    if e.Obtain? {
      assert ButLast(st.sources[i].obtained + [e.item]) == st.sources[i].obtained;
    }
    SourceStepKeepsInv(st, i, s);
  }

  lemma StepKeepsInv(st: State, e: Event)
    requires Inv(st)
    ensures Inv(Step(st, e))
  {
    if Enabled(st, e) {
      if IsLoopStep(e) {
        LoopStepKeepsInv(st, e);
      } else {
        match e {
          case CallAccept => AcceptStepKeepsInv(st, st.accepts + [Waiting]);
          case AcceptSeesClosed(a) => AcceptStepKeepsInv(st, st.accepts[a := GotClosed]);
          case Send(i, a) => SendKeepsInv(st, i, a);
          case _ => CallsKeepRest(st, e);
        }
      }
    }
  }

  lemma InitialInv(n: nat)
    ensures Inv(Initial(n))
  {
  }

  lemma StepKeepsSources(st: State, e: Event)
    ensures |Step(st, e).sources| == |st.sources|
  {
  }

  lemma {:induction false} ExecKeepsInv(st: State, es: seq<Event>)
    requires Inv(st)
    ensures Inv(Exec(st, es)) && |Exec(st, es).sources| == |st.sources|
    decreases es
  {
    if es != [] {
      StepKeepsInv(st, es[0]);
      StepKeepsSources(st, es[0]);
      ExecKeepsInv(Step(st, es[0]), es[1..]);
    }
  }

  // ---------------------------------------------------------------- theorems

  /** Ordered merge: what was delivered from a listener is what its loop obtained, in order and without gaps, up to
      one last item. That item is in hand, or was dropped after Close; a dropped connection is closed, once. */
  lemma MergeIsOrdered(n: nat, es: seq<Event>, i: nat)
    requires i < n
    ensures |Run(n, es).sources| == n
    ensures var st, s := Run(n, es), Run(n, es).sources[i];
            var delivered := Projection(st.history, i);
            && delivered <= s.obtained
            && |s.obtained| <= |delivered| + 1
            && (s.closes == 0 || (s.closes == 1 && delivered != s.obtained && InHand(s).Conn? && s.phase == Exited))
            && (delivered != s.obtained && s.phase == Exited ==>
                  st.closed && s.closes == if InHand(s).Conn? then 1 else 0)
            && (delivered == s.obtained ==> s.closes == 0)
  {
    InitialInv(n);
    ExecKeepsInv(Initial(n), es);
    assert SourceInv(Run(n, es).sources[i], Projection(Run(n, es).history, i), Run(n, es).closed);
  }

  /** Nothing is lost or duplicated between the loops and the Accept calls: every entry of the history is the result
      of exactly one call, and no call returns anything else. */
  lemma EachDeliveryTakenOnce(n: nat, es: seq<Event>, p: nat)
    ensures multiset(Run(n, es).accepts)[Got(p)] == if p < |Run(n, es).history| then 1 else 0
  {
    InitialInv(n);
    ExecKeepsInv(Initial(n), es);
    assert TakenOnce(Run(n, es), p);
  }

  /** Once a Close has returned nil, every inner listener has been closed exactly once, by that call alone. */
  lemma CloseClosesEachOnce(n: nat, es: seq<Event>, k: nat)
    requires k < |Run(n, es).closers| && Run(n, es).closers[k] == Closed
    ensures var st := Run(n, es);
            && |st.sources| == n
            && (forall i :: 0 <= i < n ==> st.sources[i].listenerCloses == 1 && !st.sources[i].open)
            && (forall j :: 0 <= j < |st.closers| && j != k ==> !IsWinner(st.closers[j]))
  {
    InitialInv(n);
    ExecKeepsInv(Initial(n), es);
    var st := Run(n, es);
    assert IsWinner(st.closers[k]);
    var w :| Won(st, w);
  }
}
