/** A merged listener makes progress: in every reachable state that is not closed, the item a loop has in hand can
    reach a waiting Accept call, the loop then goes on to the next item, and a Close call can run to its end. */
module MultiListenerProgress {
  import opened Prelude
  import opened MultiListener

  lemma {:induction false} ExecConcat(st: State, a: seq<Event>, b: seq<Event>)
    ensures Exec(st, a + b) == Exec(Exec(st, a), b)
    decreases a
  {
    if a == [] {
      assert a + b == b;
    } else {
      assert (a + b)[1..] == a[1..] + b;
      ExecConcat(Step(st, a[0]), a[1..], b);
    }
  }

  lemma AddEvent(n: nat, es: seq<Event>, e: Event)
    ensures Run(n, es + [e]) == Step(Run(n, es), e)
  {
    ExecConcat(Initial(n), es, [e]);
    assert Exec(Run(n, es), [e]) == Step(Run(n, es), e);
  }

  lemma ReachableInv(n: nat, es: seq<Event>)
    ensures Inv(Run(n, es)) && |Run(n, es).sources| == n
  {
    InitialInv(n);
    ExecKeepsInv(Initial(n), es);
  }

  // ---------------------------------------------------------------- items

  /** Everything the loop of listener i has obtained has been delivered. */
  predicate IsCaughtUp(st: State, i: nat)
    requires i < |st.sources|
  {
    Projection(st.history, i) == st.sources[i].obtained
  }

  /** The last item the loop of listener i has obtained, connection or error, has not been delivered. */
  predicate IsBehind(st: State, i: nat)
    requires i < |st.sources|
  {
    var obtained := st.sources[i].obtained;
    obtained != [] && Projection(st.history, i) == obtained[..|obtained| - 1]
  }

  /** Before Close, a loop that is behind can catch up with any waiting Accept call, which gets just that item. */
  lemma ItemReachesAccept(n: nat, es: seq<Event>, i: nat, a: nat) returns (e: Event)
    requires i < |Run(n, es).sources| && IsBehind(Run(n, es), i) && !Run(n, es).closed
    requires a < |Run(n, es).accepts| && Run(n, es).accepts[a] == Waiting
    ensures var before, after := Run(n, es), Run(n, es + [e]);
            var item := before.sources[i].obtained[|before.sources[i].obtained| - 1];
            && |before.sources| == |after.sources| == n
            && after.accepts == before.accepts[a := Got(|before.history|)]
            && after.history == before.history + [Delivery(i, item)]
            && after.sources[i].obtained == before.sources[i].obtained && IsCaughtUp(after, i)
            && after.closed == before.closed && after.closers == before.closers
            && (forall j :: 0 <= j < n && j != i ==> after.sources[j] == before.sources[j])
  {
    ReachableInv(n, es);
    ReachableInv(n, es + [Send(i, a)]);
    var st := Run(n, es);
    assert SourceInv(st.sources[i], Projection(st.history, i), st.closed);
    assert |ButLast(st.sources[i].obtained)| < |st.sources[i].obtained|;
    e := Send(i, a);
    AddEvent(n, es, e);
    ProjectionAppend(st.history, Delivery(i, InHand(st.sources[i])), i);
    assert ButLast(st.sources[i].obtained) + [InHand(st.sources[i])] == st.sources[i].obtained;
  }

  /** Before Close, a loop that has caught up obtains whatever its listener yields next, as long as that is open. */
  lemma NextIsObtained(n: nat, es: seq<Event>, i: nat, item: Item) returns (e: Event)
    requires i < |Run(n, es).sources| && IsCaughtUp(Run(n, es), i)
    requires !Run(n, es).closed && Run(n, es).sources[i].open
    ensures var before, after := Run(n, es), Run(n, es + [e]);
            && |before.sources| == |after.sources| == n
            && after.sources[i].obtained == before.sources[i].obtained + [item] && IsBehind(after, i)
            && after.history == before.history && after.accepts == before.accepts
            && (forall j :: 0 <= j < n && j != i ==> after.sources[j] == before.sources[j])
  {
    ReachableInv(n, es);
    ReachableInv(n, es + [Obtain(i, item)]);
    var st := Run(n, es);
    assert SourceInv(st.sources[i], Projection(st.history, i), st.closed);
    e := Obtain(i, item);
    AddEvent(n, es, e);
    assert (st.sources[i].obtained + [item])[..|st.sources[i].obtained|] == st.sources[i].obtained;
  }

  /** Before Close, every loop is in one of these two situations, or its listener has been closed from outside and it
      has delivered everything. */
  lemma NothingElse(n: nat, es: seq<Event>, i: nat)
    requires i < n && !Run(n, es).closed
    ensures |Run(n, es).sources| == n
    ensures IsBehind(Run(n, es), i) || IsCaughtUp(Run(n, es), i)
    ensures Run(n, es).sources[i].phase == Exited ==> IsCaughtUp(Run(n, es), i) && !Run(n, es).sources[i].open
  {
    ReachableInv(n, es);
    var st := Run(n, es);
    assert SourceInv(st.sources[i], Projection(st.history, i), st.closed);
  }

  /** Anybody can call Accept and Close at any time; the call then waits. */
  lemma CallsBegin(n: nat, es: seq<Event>)
    ensures Run(n, es + [CallAccept]) == Run(n, es).(accepts := Run(n, es).accepts + [Waiting])
    ensures Run(n, es + [CallClose]) == Run(n, es).(closers := Run(n, es).closers + [Locking])
  {
    AddEvent(n, es, CallAccept);
    AddEvent(n, es, CallClose);
  }

  /** When inner listener i closes by itself, its loop can end, and that is all. */
  lemma InnerCloseEndsLoop(n: nat, es: seq<Event>, i: nat) returns (e: Event)
    requires i < |Run(n, es).sources|
    ensures var s := Run(n, es).sources[i];
            && Run(n, es + [InnerDies(i)]) == SetSource(Run(n, es), i, s.(open := false))
            && (s.phase == Accepting ==>
                  Run(n, es + [InnerDies(i)] + [e]) == SetSource(Run(n, es), i, s.(open := false, phase := Exited)))
  {
    e := SeeInnerClosed(i);
    AddEvent(n, es, InnerDies(i));
    AddEvent(n, es + [InnerDies(i)], e);
  }

  predicate IsOpenUntilClosed(st: State, i: nat) {
    i < |st.sources| && st.sources[i].listenerCloses == 0 ==> st.sources[i].open
  }

  lemma {:induction false} OpenUntilClosed(st: State, es: seq<Event>, i: nat)
    requires InnerDies(i) !in es && IsOpenUntilClosed(st, i)
    ensures IsOpenUntilClosed(Exec(st, es), i)
    decreases es
  {
    if es != [] {
      assert es[0] in es;
      OpenUntilClosed(Step(st, es[0]), es[1..], i);
    }
  }

  /** An inner listener is open until it closes by itself or Close closes it. */
  lemma InnerStaysOpen(n: nat, es: seq<Event>, i: nat)
    requires i < |Run(n, es).sources| && InnerDies(i) !in es && Run(n, es).sources[i].listenerCloses == 0
    ensures Run(n, es).sources[i].open
  {
    OpenUntilClosed(Initial(n), es, i);
  }

  // ---------------------------------------------------------------- net.ErrClosed

  predicate NobodySawClosed(st: State) {
    !st.closed ==> forall a :: 0 <= a < |st.accepts| ==> st.accepts[a] != GotClosed
  }

  lemma {:induction false} NobodySeesClosed(st: State, es: seq<Event>)
    requires NobodySawClosed(st)
    ensures NobodySawClosed(Exec(st, es))
    decreases es
  {
    if es != [] {
      NobodySeesClosed(Step(st, es[0]), es[1..]);
    }
  }

  /** Accept returns net.ErrClosed only after Close, and then it can. */
  lemma ClosedIsSeenExactlyAfterClose(n: nat, es: seq<Event>, a: nat) returns (e: Event)
    requires a < |Run(n, es).accepts|
    ensures Run(n, es).accepts[a] == GotClosed ==> Run(n, es).closed
    ensures Run(n, es).accepts[a] == Waiting && Run(n, es).closed ==>
              Run(n, es + [e]) == Run(n, es).(accepts := Run(n, es).accepts[a := GotClosed])
  {
    NobodySeesClosed(Initial(n), es);
    e := AcceptSeesClosed(a);
    AddEvent(n, es, e);
  }

  // ---------------------------------------------------------------- Close

  /** The call that is closing the inner listeners can close them all and return. */
  lemma {:induction false} WinnerFinishes(n: nat, es: seq<Event>, k: nat) returns (more: seq<Event>)
    requires k < |Run(n, es).closers| && Run(n, es).closers[k].ClosingListeners?
    ensures Run(n, es + more).closers == Run(n, es).closers[k := Closed]
    ensures Run(n, es + more).mutex == None && Run(n, es + more).closed
    decreases n - Run(n, es).closers[k].next
  {
    ReachableInv(n, es);
    var next := Run(n, es).closers[k].next;
    AddEvent(n, es, CloseNext(k));
    assert Run(n, es).closed;
    if next < n {
      var rest := WinnerFinishes(n, es + [CloseNext(k)], k);
      more := [CloseNext(k)] + rest;
      assert es + more == (es + [CloseNext(k)]) + rest;
    } else {
      more := [CloseNext(k)];
    }
  }

  lemma HolderFinishes(n: nat, es: seq<Event>, k: nat) returns (more: seq<Event>)
    requires Run(n, es).mutex == Some(k)
    ensures Run(n, es + more).mutex == None && Run(n, es + more).closed
    ensures k < |Run(n, es).closers|
    ensures var before, after := Run(n, es), Run(n, es + more);
            after.closers
            == before.closers[k := if before.closers[k] == Checking && before.closed then RefusedClosed else Closed]
  {
    ReachableInv(n, es);
    if Run(n, es).closers[k] == Checking {
      AddEvent(n, es, CheckClosed(k));
      more := [CheckClosed(k)];
      if !Run(n, es).closed {
        var rest := WinnerFinishes(n, es + [CheckClosed(k)], k);
        more := [CheckClosed(k)] + rest;
        assert es + more == (es + [CheckClosed(k)]) + rest;
      }
    } else {
      more := WinnerFinishes(n, es, k);
    }
  }

  /** Every Close call can return: with success if nobody had closed the listener before, and else with
      net.ErrClosed. */
  lemma CloseReturns(n: nat, es: seq<Event>, k: nat) returns (more: seq<Event>)
    requires k < |Run(n, es).closers| && Run(n, es).closers[k] == Locking
    ensures k < |Run(n, es + more).closers| && Run(n, es + more).closed
    ensures Run(n, es + more).closers[k]
            == if Run(n, es).closed || Run(n, es).mutex.Some? then RefusedClosed else Closed
  {
    ReachableInv(n, es);
    more := [];
    assert es + more == es;
    if Run(n, es).mutex.Some? {
      more := HolderFinishes(n, es, Run(n, es).mutex.value);
    }
    AddEvent(n, es + more, Lock(k));
    var locked := es + more + [Lock(k)];
    var rest := HolderFinishes(n, locked, k);
    assert locked + rest == es + (more + [Lock(k)] + rest);
    more := more + [Lock(k)] + rest;
  }
}
