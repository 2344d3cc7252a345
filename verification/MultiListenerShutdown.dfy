/** A merged listener shuts down: after Close, every loop exits and every blocked Accept returns. */
module MultiListenerShutdown {
  import opened Prelude
  import opened MultiListener

  /** Close has done its work. */
  predicate IsClosed(st: State) {
    st.closed && forall i :: 0 <= i < |st.sources| ==> !st.sources[i].open
  }

  function SourceRank(s: Source): nat {
    match s.phase
    case Offering => 2
    case Accepting => 1
    case Closing => 1
    case Exited => 0
  }

  function AcceptRank(a: AcceptCall): nat {
    if a == Waiting then 1 else 0
  }

  function CloseRank(c: CloseCall, n: nat): nat {
    match c
    case Locking => n + 3
    case Checking => n + 2
    case ClosingListeners(next) => if next <= n then n - next + 1 else 1
    case _ => 0
  }

  function SourceRanks(s: seq<Source>): seq<nat> {
    seq(|s|, i requires 0 <= i < |s| => SourceRank(s[i]))
  }

  function AcceptRanks(s: seq<AcceptCall>): seq<nat> {
    seq(|s|, i requires 0 <= i < |s| => AcceptRank(s[i]))
  }

  function CloseRanks(s: seq<CloseCall>, n: nat): seq<nat> {
    seq(|s|, i requires 0 <= i < |s| => CloseRank(s[i], n))
  }

  /** A bound on the steps that all loops and calls together can still take. */
  function Rank(st: State): nat {
    Sum(SourceRanks(st.sources)) + Sum(AcceptRanks(st.accepts)) + Sum(CloseRanks(st.closers, |st.sources|))
  }

  lemma SourceRankUpdate(s: seq<Source>, i: nat, x: Source)
    requires i < |s|
    ensures Sum(SourceRanks(s[i := x])) + SourceRank(s[i]) == Sum(SourceRanks(s)) + SourceRank(x)
  {
    SumUpdate(SourceRanks(s), i, SourceRank(x));
    assert SourceRanks(s[i := x]) == SourceRanks(s)[i := SourceRank(x)];
  }

  lemma AcceptRankUpdate(s: seq<AcceptCall>, i: nat, x: AcceptCall)
    requires i < |s|
    ensures Sum(AcceptRanks(s[i := x])) + AcceptRank(s[i]) == Sum(AcceptRanks(s)) + AcceptRank(x)
  {
    SumUpdate(AcceptRanks(s), i, AcceptRank(x));
    assert AcceptRanks(s[i := x]) == AcceptRanks(s)[i := AcceptRank(x)];
  }

  lemma CloseRankUpdate(s: seq<CloseCall>, n: nat, i: nat, x: CloseCall)
    requires i < |s|
    ensures Sum(CloseRanks(s[i := x], n)) + CloseRank(s[i], n) == Sum(CloseRanks(s, n)) + CloseRank(x, n)
  {
    SumUpdate(CloseRanks(s, n), i, CloseRank(x, n));
    assert CloseRanks(s[i := x], n) == CloseRanks(s, n)[i := CloseRank(x, n)];
  }

  lemma CallRank(st: State, e: Event)
    requires IsCall(e)
    ensures Rank(Step(st, e)) <= Rank(st) + |st.sources| + 3
  {
    match e {
      case CallAccept =>
        SumAppend(AcceptRanks(st.accepts), 1);
        assert AcceptRanks(st.accepts + [Waiting]) == AcceptRanks(st.accepts) + [1];
      case CallClose =>
        var n := |st.sources|;
        SumAppend(CloseRanks(st.closers, n), n + 3);
        assert CloseRanks(st.closers + [Locking], n) == CloseRanks(st.closers, n) + [n + 3];
      case InnerDies(i) =>
        if i < |st.sources| {
          SourceRankUpdate(st.sources, i, st.sources[i].(open := false));
        }
    }
  }

  lemma ItemRank(st: State, e: Event)
    requires e.Obtain?
    ensures Rank(Step(st, e)) <= Rank(st) + 1
  {
    if Enabled(st, e) {
      SourceRankUpdate(st.sources, e.i, Step(st, e).sources[e.i]);
    }
  }

  /** A step that a loop or a call takes on what it already has. */
  predicate IsOwnStep(e: Event) {
    !IsCall(e) && !e.Obtain?
  }

  lemma LoopLowersRank(st: State, e: Event)
    requires Enabled(st, e) && (e.SeeInnerClosed? || e.Send? || e.SendSeesClosed? || e.CloseConn?)
    ensures Rank(Step(st, e)) < Rank(st)
  {
    SourceRankUpdate(st.sources, e.i, Step(st, e).sources[e.i]);
    if e.Send? {
      AcceptRankUpdate(st.accepts, e.a, Step(st, e).accepts[e.a]);
    }
  }

  lemma CloserLowersRank(st: State, e: Event)
    requires Enabled(st, e) && (e.Lock? || e.CheckClosed? || e.CloseNext?)
    requires e.CloseNext? ==> st.closers[e.k].next <= |st.sources|
    ensures Rank(Step(st, e)) < Rank(st)
  {
    var n := |st.sources|;
    CloseRankUpdate(st.closers, n, e.k, Step(st, e).closers[e.k]);
    if e.CloseNext? && st.closers[e.k].next < n {
      var i := st.closers[e.k].next;
      SourceRankUpdate(st.sources, i, Step(st, e).sources[i]);
    }
  }

  /** Every step of a loop or a call lowers the rank; what could raise it is new calls and new items. */
  lemma StepLowersRank(st: State, e: Event)
    requires Enabled(st, e) && IsOwnStep(e)
    requires e.CloseNext? ==> st.closers[e.k].next <= |st.sources|
    ensures Rank(Step(st, e)) < Rank(st)
  {
    if e.Lock? || e.CheckClosed? || e.CloseNext? {
      CloserLowersRank(st, e);
    } else if e.AcceptSeesClosed? {
      AcceptRankUpdate(st.accepts, e.a, Step(st, e).accepts[e.a]);
    } else {
      LoopLowersRank(st, e);
    }
  }

  lemma StaysClosed(st: State, e: Event)
    requires IsClosed(st)
    ensures IsClosed(Step(st, e))
  {
  }

  /** How many of the events are steps actually taken by loops or pending calls. */
  function StepsTaken(st: State, es: seq<Event>): nat
    decreases es
  {
    if es == [] then 0
    else (if Enabled(st, es[0]) && IsOwnStep(es[0]) then 1 else 0) + StepsTaken(Step(st, es[0]), es[1..])
  }

  /** What new calls add to the rank. */
  function CallCost(n: nat, es: seq<Event>): nat {
    if es == [] then 0 else (if IsCall(es[0]) then n + 3 else 0) + CallCost(n, es[1..])
  }

  /** The connections and errors obtained from the inner listeners. */
  function Items(st: State, es: seq<Event>): nat
    decreases es
  {
    if es == [] then 0
    else (if Enabled(st, es[0]) && es[0].Obtain? then 1 else 0) + Items(Step(st, es[0]), es[1..])
  }

  /** After Close there are only so many steps left, whatever the schedule: each later call adds its own, and each item
      that an inner listener yields although it is closed adds one. */
  lemma {:induction false} ShutdownIsBounded(st: State, es: seq<Event>)
    requires Inv(st) && IsClosed(st)
    ensures IsClosed(Exec(st, es))
    ensures StepsTaken(st, es) + Rank(Exec(st, es)) <= Rank(st) + CallCost(|st.sources|, es) + Items(st, es)
    decreases es
  {
    if es != [] {
      var e := es[0];
      StepKeepsInv(st, e);
      StepKeepsSources(st, e);
      StaysClosed(st, e);
      if IsCall(e) {
        CallRank(st, e);
      } else if Enabled(st, e) {
        if e.Obtain? {
          ItemRank(st, e);
        } else {
          StepLowersRank(st, e);
        }
      }
      ShutdownIsBounded(Step(st, e), es[1..]);
    }
  }

  function Offers(s: Source): nat {
    if s.phase == Offering then 1 else 0
  }

  function AllOffers(s: seq<Source>): seq<nat> {
    seq(|s|, i requires 0 <= i < |s| => Offers(s[i]))
  }

  /** What the loops have in hand to hand over. */
  function Pending(st: State): nat {
    Sum(AllOffers(st.sources))
  }

  lemma OffersUpdate(s: seq<Source>, i: nat, x: Source)
    requires i < |s|
    ensures Sum(AllOffers(s[i := x])) + Offers(s[i]) == Sum(AllOffers(s)) + Offers(x)
  {
    SumUpdate(AllOffers(s), i, Offers(x));
    assert AllOffers(s[i := x]) == AllOffers(s)[i := Offers(x)];
  }

  lemma PendingAfter(st: State, e: Event)
    requires Enabled(st, e)
    ensures Pending(Step(st, e)) + (if e.Send? then 1 else 0) <= Pending(st) + if e.Obtain? then 1 else 0
  {
    match e {
      case InnerDies(i) => OffersUpdate(st.sources, i, Step(st, e).sources[i]);
      case Obtain(i, _) => OffersUpdate(st.sources, i, Step(st, e).sources[i]);
      case SeeInnerClosed(i) => OffersUpdate(st.sources, i, Step(st, e).sources[i]);
      case Send(i, _) => OffersUpdate(st.sources, i, Step(st, e).sources[i]);
      case SendSeesClosed(i) => OffersUpdate(st.sources, i, Step(st, e).sources[i]);
      case CloseConn(i) => OffersUpdate(st.sources, i, Step(st, e).sources[i]);
      case CloseNext(k) =>
        var i := st.closers[k].next;
        if i < |st.sources| {
          OffersUpdate(st.sources, i, Step(st, e).sources[i]);
        }
      case _ =>
    }
  }

  /** What Accept calls receive, other than net.ErrClosed. */
  function HandOvers(st: State, es: seq<Event>): nat
    decreases es
  {
    if es == [] then 0
    else (if Enabled(st, es[0]) && es[0].Send? then 1 else 0) + HandOvers(Step(st, es[0]), es[1..])
  }

  /** However many Accept calls are made and whether it is closed or not, a listener hands over at most what its loops
      have in hand and what they still obtain. So a closed listener inside another one yields only so many late items,
      if the listeners below it do. */
  lemma {:induction false} HandOversAreBounded(st: State, es: seq<Event>)
    ensures HandOvers(st, es) + Pending(Exec(st, es)) <= Pending(st) + Items(st, es)
    decreases es
  {
    if es != [] {
      if Enabled(st, es[0]) {
        PendingAfter(st, es[0]);
      }
      HandOversAreBounded(Step(st, es[0]), es[1..]);
    }
  }

  /** Every loop has exited and every call has returned. */
  predicate Quiet(st: State) {
    && (forall i :: 0 <= i < |st.sources| ==> st.sources[i].phase == Exited)
    && (forall a :: 0 <= a < |st.accepts| ==> st.accepts[a] != Waiting)
    && (forall k :: 0 <= k < |st.closers| ==> st.closers[k] in {Closed, RefusedClosed})
  }

  /** After Close nothing is ever stuck: until everything is quiet, some loop or call can step. */
  lemma NothingIsStuck(st: State) returns (e: Event)
    requires Inv(st) && IsClosed(st) && !Quiet(st)
    ensures Enabled(st, e) && IsOwnStep(e)
  {
    if i :| 0 <= i < |st.sources| && st.sources[i].phase != Exited {
      assert SourceInv(st.sources[i], Projection(st.history, i), st.closed);
      e := if st.sources[i].phase == Accepting then SeeInnerClosed(i)
           else if st.sources[i].phase == Offering then SendSeesClosed(i)
           else CloseConn(i);
    } else if a :| 0 <= a < |st.accepts| && st.accepts[a] == Waiting {
      e := AcceptSeesClosed(a);
    } else {
      var k :| 0 <= k < |st.closers| && st.closers[k] !in {Closed, RefusedClosed};
      if st.mutex == None {
        assert st.closers[k] == Locking;
        e := Lock(k);
      } else {
        var holder := st.mutex.value;
        assert st.closers[holder] == Checking || st.closers[holder].ClosingListeners?;
        e := if st.closers[holder] == Checking then CheckClosed(holder) else CloseNext(holder);
      }
    }
  }

  /** Once a Close has returned nil and no step is left but new calls and late items: all loops are gone, every Accept
      has returned, and each listener's items were delivered in order, except possibly a last one that was dropped or
      closed. */
  lemma ShutdownDrains(n: nat, es: seq<Event>, k: nat)
    requires k < |Run(n, es).closers| && Run(n, es).closers[k] == Closed
    requires forall e :: Enabled(Run(n, es), e) ==> !IsOwnStep(e)
    ensures Quiet(Run(n, es)) && |Run(n, es).sources| == n
    ensures forall i :: 0 <= i < n ==>
              var s, delivered := Run(n, es).sources[i], Projection(Run(n, es).history, i);
              delivered == s.obtained
              || (s.obtained != [] && delivered == ButLast(s.obtained) && s.closes == if InHand(s).Conn? then 1 else 0)
  {
    var st := Run(n, es);
    CloseClosesEachOnce(n, es, k);
    InitialInv(n);
    ExecKeepsInv(Initial(n), es);
    assert st.closed by {
      assert IsWinner(st.closers[k]);
    }
    if !Quiet(st) {
      var e := NothingIsStuck(st);
    }
    forall i | 0 <= i < n
      ensures SourceInv(st.sources[i], Projection(st.history, i), st.closed)
    {
    }
  }
}
