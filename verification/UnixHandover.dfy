/** unix/listener.go, watch: successive listeners on one path, each watching whether the path still names its socket.

    Listener i is the i-th to rename its socket onto the path; socket inodes are not reused, so os.SameFile compares
    these numbers. */
module UnixHandover {
  import opened Prelude

  /** The watch goroutine: in its select, between its Lstat and what follows from it, or finished. */
  datatype Watcher = Watching | Looked(same: bool) | Finished

  /** closedByWatch and closedByUser tell who has closed the socket; ticks counts completed ticks. */
  datatype Listener = Listener(watcher: Watcher, closedByWatch: bool, closedByUser: bool, ticks: nat)

  /** What the path names: the socket of a listener, or nothing or anything else (None). */
  datatype State = State(named: Option<nat>, listeners: seq<Listener>)

  const INITIAL := State(None, [])

  datatype Event =
    | Publish           // a Listen renames its socket onto the path and starts its watcher
    // somebody else removes the path, or puts the socket of a listener or anything else there
    | Tamper(put: Option<nat>)
    | Look(i: nat)      // watcher i: the ticker fires, Lstat
    | React(i: nat)     // watcher i: keep watching, or close the listener and return
    | CloseByUser(i: nat)
    | SeeClosed(i: nat) // watcher i: the closed channel is ready

  predicate IsOpen(l: Listener) {
    !l.closedByWatch && !l.closedByUser
  }

  predicate Enabled(st: State, e: Event) {
    match e
    case Publish => true
    case Tamper(_) => true
    case Look(i) => i < |st.listeners| && st.listeners[i].watcher == Watching
    case React(i) => i < |st.listeners| && st.listeners[i].watcher.Looked?
    case CloseByUser(i) => i < |st.listeners| && !st.listeners[i].closedByUser
    case SeeClosed(i) => i < |st.listeners| && st.listeners[i].watcher == Watching && st.listeners[i].closedByUser
  }

  function Update(l: Listener, i: nat, named: Option<nat>, e: Event): Listener {
    match e
    case Look(_) => l.(watcher := Looked(named == Some(i)))
    case React(_) =>
      if l.watcher == Looked(true) then l.(watcher := Watching, ticks := l.ticks + 1)
      else l.(watcher := Finished, closedByWatch := true, ticks := l.ticks + 1)
    case CloseByUser(_) => l.(closedByUser := true)
    case SeeClosed(_) => l.(watcher := Finished)
    case _ => l
  }

  function Step(st: State, e: Event): State {
    if !Enabled(st, e) then st
    else match e
      case Publish => State(Some(|st.listeners|), st.listeners + [Listener(Watching, false, false, 0)])
      case Tamper(put) => st.(named := if put.Some? && put.value < |st.listeners| then put else None)
      case Look(i) => st.(listeners := st.listeners[i := Update(st.listeners[i], i, st.named, e)])
      case React(i) => st.(listeners := st.listeners[i := Update(st.listeners[i], i, st.named, e)])
      case CloseByUser(i) => st.(listeners := st.listeners[i := Update(st.listeners[i], i, st.named, e)])
      case SeeClosed(i) => st.(listeners := st.listeners[i := Update(st.listeners[i], i, st.named, e)])
  }

  function Exec(st: State, es: seq<Event>): State
    decreases es
  {
    if es == [] then st else Exec(Step(st, es[0]), es[1..])
  }

  function Run(es: seq<Event>): State {
    Exec(INITIAL, es)
  }

  lemma {:induction false} ExecConcat(st: State, a: seq<Event>, b: seq<Event>)
    ensures Exec(st, a + b) == Exec(Exec(st, a), b)
    decreases a
  {
    if a == [] {
      assert a + b == b;
    } else {
      assert (a + b)[1..] == a[1..] + b;
      ExecConcat(Step(st, a[0]), a[1..], b);
    }
  }

  lemma AddEvent(es: seq<Event>, e: Event)
    ensures Run(es + [e]) == Step(Run(es), e)
  {
    ExecConcat(INITIAL, es, [e]);
    assert Exec(Run(es), [e]) == Step(Run(es), e);
  }

  /** The run up to and including event k. */
  lemma RunTo(es: seq<Event>, k: nat)
    requires k < |es|
    ensures Run(es[..k + 1]) == Step(Run(es[..k]), es[k])
  {
    AddEvent(es[..k], es[k]);
    assert es[..k + 1] == es[..k] + [es[k]];
  }

  lemma {:induction false} MoreListeners(st: State, es: seq<Event>)
    ensures |st.listeners| <= |Exec(st, es).listeners|
    decreases es
  {
    if es != [] {
      MoreListeners(Step(st, es[0]), es[1..]);
    }
  }

  // ---------------------------------------------------------------- who changes the path

  /** Nobody else touches the path. */
  predicate Undisturbed(es: seq<Event>) {
    forall k :: 0 <= k < |es| ==> !es[k].Tamper?
  }

  /** Nobody puts the socket of listener i back. */
  predicate NotPutBack(es: seq<Event>, i: nat) {
    forall k :: 0 <= k < |es| ==> es[k] != Tamper(Some(i))
  }

  /** The last of these events that changes what the path names. */
  function LastMove(es: seq<Event>): Option<Event> {
    if es == [] then None
    else if es[|es| - 1].Publish? || es[|es| - 1].Tamper? then Some(es[|es| - 1])
    else LastMove(es[..|es| - 1])
  }

  /** An existing listener's socket is at the path exactly if it was last put there, or was there all along. */
  lemma {:induction false} NamedAfter(st: State, es: seq<Event>, i: nat)
    requires i < |st.listeners|
    ensures Exec(st, es).named == Some(i)
            <==> LastMove(es) == Some(Tamper(Some(i))) || (LastMove(es) == None && st.named == Some(i))
    decreases es
  {
    if es != [] {
      var n := |es| - 1;
      NamedAfter(st, es[..n], i);
      ExecConcat(st, es[..n], [es[n]]);
      MoreListeners(st, es[..n]);
      assert es == es[..n] + [es[n]];
      assert Exec(Exec(st, es[..n]), [es[n]]) == Step(Exec(st, es[..n]), es[n]);
    }
  }

  lemma {:induction false} LastMoveIsEvent(es: seq<Event>)
    ensures LastMove(es).Some? ==> LastMove(es).value in es
  {
    if es != [] {
      LastMoveIsEvent(es[..|es| - 1]);
    }
  }

  lemma {:induction false} LatestIsNamed(st: State, es: seq<Event>)
    requires Undisturbed(es)
    requires st.listeners != [] ==> st.named == Some(|st.listeners| - 1)
    ensures Exec(st, es).listeners != [] ==> Exec(st, es).named == Some(|Exec(st, es).listeners| - 1)
    decreases es
  {
    if es != [] {
      LatestIsNamed(Step(st, es[0]), es[1..]);
    }
  }

  // ---------------------------------------------------------------- a tick

  /** The path no longer names the socket of listener i. */
  predicate Displaced(st: State, i: nat) {
    i < |st.listeners| && st.named != Some(i)
  }

  predicate At(st: State, i: nat, w: Watcher) {
    i < |st.listeners| && st.listeners[i].watcher == w
  }

  /** Between Lstat and what follows from it, nothing that happens elsewhere changes the outcome. */
  lemma {:induction false} OutcomeIsFixed(st: State, es: seq<Event>, i: nat)
    requires i < |st.listeners| && st.listeners[i].watcher.Looked? && React(i) !in es
    ensures i < |Exec(st, es).listeners|
    ensures Exec(st, es).listeners[i].watcher == st.listeners[i].watcher
    ensures Exec(st, es).listeners[i].closedByWatch == st.listeners[i].closedByWatch
    decreases es
  {
    if es != [] {
      assert es[0] in es;
      OutcomeIsFixed(Step(st, es[0]), es[1..], i);
    }
  }

  /** A watcher that has closed its listener has returned, and a watcher that has returned leaves it closed. */
  predicate Inv(st: State) {
    forall i :: 0 <= i < |st.listeners| ==>
      var l := st.listeners[i];
      (l.closedByWatch ==> l.watcher == Finished) && (l.watcher == Finished ==> !IsOpen(l))
  }

  lemma {:induction false} ExecKeepsInv(st: State, es: seq<Event>)
    requires Inv(st)
    ensures Inv(Exec(st, es))
    decreases es
  {
    if es != [] {
      ExecKeepsInv(Step(st, es[0]), es[1..]);
    }
  }

  /** One tick of watcher i, from the ticker to its end: whoever touches the path meanwhile, the tick closes the
      listener exactly if the path did not name its socket when the tick looked. */
  lemma TickClosesExactly(before: seq<Event>, meanwhile: seq<Event>, i: nat)
    requires Enabled(Run(before), Look(i)) && React(i) !in meanwhile
    ensures var looked, st := Run(before + [Look(i)] + meanwhile), Run(before + [Look(i)] + meanwhile + [React(i)]);
            && i < |looked.listeners| && i < |st.listeners|
            && st.listeners[i].ticks == looked.listeners[i].ticks + 1
            && (st.listeners[i].closedByWatch <==> Run(before).named != Some(i))
  {
    ExecKeepsInv(INITIAL, before);
    ExecConcat(INITIAL, before, [Look(i)]);
    ExecConcat(INITIAL, before + [Look(i)], meanwhile);
    ExecConcat(INITIAL, before + [Look(i)] + meanwhile, [React(i)]);
    var looked := Step(Run(before), Look(i));
    assert Exec(Run(before), [Look(i)]) == looked;
    OutcomeIsFixed(looked, meanwhile, i);
    var st := Exec(looked, meanwhile);
    assert Exec(st, [React(i)]) == Step(st, React(i));
  }

  // ---------------------------------------------------------------- theorems

  /** While watcher i has looked and not yet reacted, and had not looked before. */
  predicate TickSpan(es: seq<Event>, look: nat, react: nat, i: nat) {
    && look < react <= |es|
    && es[look] == Look(i)
    && At(Run(es[..look]), i, Watching)
    && forall k :: look < k <= react ==> At(Run(es[..k]), i, Looked(Run(es[..look]).named == Some(i)))
  }

  lemma SpanGrows(es: seq<Event>, look: nat, react: nat, i: nat)
    requires react <= |es| && TickSpan(es[..react], look, react, i)
    ensures TickSpan(es, look, react, i)
  {
    assert forall k :: 0 <= k <= react ==> es[..react][..k] == es[..k];
  }

  /** A tick that has looked began at some event. */
  lemma {:induction false} TickBegan(es: seq<Event>, i: nat) returns (look: nat)
    requires i < |Run(es).listeners| && Run(es).listeners[i].watcher.Looked?
    ensures TickSpan(es, look, |es|, i)
    decreases es
  {
    var n := |es| - 1;
    RunTo(es, n);
    assert es[..n + 1] == es;
    if es[n] == Look(i) && At(Run(es[..n]), i, Watching) {
      look := n;
    } else {
      look := TickBegan(es[..n], i);
      var same := Run(es[..look]).named == Some(i);
      assert es[..n][..look] == es[..look];
      assert es[..n][..n] == es[..n];
      assert At(Run(es[..n]), i, Looked(same));
      forall k | look < k <= n
        ensures At(Run(es[..k]), i, Looked(same))
      {
        assert es[..n][..k] == es[..k];
      }
    }
  }

  /** A listener closed by its watcher was closed at the end of a tick. */
  lemma {:induction false} ClosingEvent(es: seq<Event>, i: nat) returns (react: nat)
    requires i < |Run(es).listeners| && Run(es).listeners[i].closedByWatch
    ensures react < |es| && es[react] == React(i)
    ensures At(Run(es[..react]), i, Looked(false)) && !Run(es[..react]).listeners[i].closedByWatch
    ensures At(Run(es[..react + 1]), i, Finished) && Run(es[..react + 1]).listeners[i].closedByWatch
    decreases es
  {
    var n := |es| - 1;
    RunTo(es, n);
    assert es[..n + 1] == es;
    if i < |Run(es[..n]).listeners| && Run(es[..n]).listeners[i].closedByWatch {
      react := ClosingEvent(es[..n], i);
      assert es[..n][..react] == es[..react] && es[..n][..react + 1] == es[..react + 1];
    } else {
      ExecKeepsInv(INITIAL, es[..n]);
      react := n;
    }
  }

  /** Whoever else touches the path, a watcher closes its listener only at the end of a tick that found the path naming
      something else. When it closes it, the path names the listener's socket exactly if the last change of the path
      since that look was somebody putting the socket back. */
  lemma WatcherIsRight(es: seq<Event>, i: nat) returns (look: nat, react: nat)
    requires i < |Run(es).listeners| && Run(es).listeners[i].closedByWatch
    ensures react < |es| && es[react] == React(i) && TickSpan(es, look, react, i)
    ensures !Run(es[..react]).listeners[i].closedByWatch
    ensures At(Run(es[..react + 1]), i, Finished) && Run(es[..react + 1]).listeners[i].closedByWatch
    ensures Run(es[..look]).named != Some(i)
    ensures Run(es[..react]).named == Some(i) <==> LastMove(es[look + 1..react]) == Some(Tamper(Some(i)))
  {
    react := ClosingEvent(es, i);
    look := TickBegan(es[..react], i);
    SpanGrows(es, look, react, i);
    RunTo(es, look);
    ExecConcat(INITIAL, es[..look + 1], es[look + 1..react]);
    assert es[..react] == es[..look + 1] + es[look + 1..react];
    NamedAfter(Run(es[..look + 1]), es[look + 1..react], i);
  }

  /** What is not put back stays away. */
  lemma StaysDisplaced(es: seq<Event>, look: nat, i: nat)
    requires NotPutBack(es, i) && look < |es| && Displaced(Run(es[..look + 1]), i)
    ensures Displaced(Run(es), i)
  {
    assert es[..look + 1] + es[look + 1..] == es;
    ExecConcat(INITIAL, es[..look + 1], es[look + 1..]);
    NamedAfter(Run(es[..look + 1]), es[look + 1..], i);
    LastMoveIsEvent(es[look + 1..]);
    MoreListeners(Run(es[..look + 1]), es[look + 1..]);
  }

  /** So without anybody putting a socket back, a listener closed by its watcher is gone from the path for good. */
  lemma ClosedIsDisplaced(es: seq<Event>, i: nat)
    requires i < |Run(es).listeners| && Run(es).listeners[i].closedByWatch && NotPutBack(es, i)
    ensures Displaced(Run(es), i)
  {
    var look, react := WatcherIsRight(es, i);
    RunTo(es, look);
    StaysDisplaced(es, look, i);
  }

  /** Any run in which a listener is still watched goes on so that its socket is moved away for an instant, its watcher
      looks just then, and it is closed although its socket is back. */
  lemma PutBackTooLate(before: seq<Event>, i: nat)
    requires At(Run(before), i, Watching)
    ensures var st := Run(before + [Tamper(None)] + [Look(i)] + [Tamper(Some(i))] + [React(i)]);
            st.named == Some(i) && i < |st.listeners| && st.listeners[i].closedByWatch
  {
    AddEvent(before, Tamper(None));
    AddEvent(before + [Tamper(None)], Look(i));
    AddEvent(before + [Tamper(None)] + [Look(i)], Tamper(Some(i)));
    AddEvent(before + [Tamper(None)] + [Look(i)] + [Tamper(Some(i))], React(i));
  }

  /** Over any sequence of listeners that nobody else disturbs, the latest is never closed by its watcher. */
  lemma LatestStaysOpen(es: seq<Event>)
    requires Undisturbed(es) && Run(es).listeners != []
    ensures var st := Run(es);
            var latest := st.listeners[|st.listeners| - 1];
            && st.named == Some(|st.listeners| - 1)
            && !latest.closedByWatch
            && latest.watcher != Looked(false)
            && (IsOpen(latest) <==> !latest.closedByUser)
  {
    var latest := |Run(es).listeners| - 1;
    LatestIsNamed(INITIAL, es);
    if Run(es).listeners[latest].closedByWatch {
      ClosedIsDisplaced(es, latest);
    }
    if Run(es).listeners[latest].watcher == Looked(false) {
      var look := TickBegan(es, latest);
      RunTo(es, look);
      assert es[..|es|] == es;
      StaysDisplaced(es, look, latest);
    }
  }

  /** The ticks that were begun before now will be over once this many have completed. */
  function Begun(l: Listener): nat {
    l.ticks + if l.watcher == Looked(true) then 1 else 0
  }

  /** Listener l has completed a tick begun after it was in state before, or its watcher has returned. */
  predicate TickedSince(before: Listener, l: Listener) {
    l.ticks > Begun(before) || l.watcher == Finished
  }

  /** Every tick begun while listener i is displaced closes it. */
  lemma {:induction false} DisplacedForGood(st: State, es: seq<Event>, i: nat)
    requires Displaced(st, i) && NotPutBack(es, i)
    ensures Displaced(Exec(st, es), i)
    ensures Exec(st, es).listeners[i].ticks > Begun(st.listeners[i]) ==> !IsOpen(Exec(st, es).listeners[i])
    ensures !IsOpen(st.listeners[i]) ==> !IsOpen(Exec(st, es).listeners[i])
    decreases es
  {
    if es != [] {
      assert es[0] in es;
      DisplacedForGood(Step(st, es[0]), es[1..], i);
    }
  }

  /** Once the path names something else, and until somebody puts the socket back, the next tick that begins and
      completes leaves the listener closed. */
  lemma DisplacedIsClosed(before: seq<Event>, after: seq<Event>, i: nat)
    requires Displaced(Run(before), i) && NotPutBack(after, i)
    requires i < |Exec(Run(before), after).listeners|
    requires TickedSince(Run(before).listeners[i], Exec(Run(before), after).listeners[i])
    ensures !IsOpen(Exec(Run(before), after).listeners[i])
  {
    DisplacedForGood(Run(before), after, i);
    ExecKeepsInv(INITIAL, before);
    ExecKeepsInv(Run(before), after);
  }

  /** Handover: after a new listener has taken the path, undisturbed, and every earlier watcher has completed a tick
      begun since then, exactly the new listener is still open (unless its user closed it). */
  lemma HandoverLeavesOneOpen(before: seq<Event>, after: seq<Event>)
    requires Undisturbed(before + [Publish] + after)
    requires var mid, st := Run(before + [Publish]), Run(before + [Publish] + after);
             && |st.listeners| == |mid.listeners|
             && forall i :: 0 <= i < |mid.listeners| - 1 ==> TickedSince(mid.listeners[i], st.listeners[i])
    ensures var st := Run(before + [Publish] + after);
            && |st.listeners| == |Run(before).listeners| + 1
            && (forall i :: 0 <= i < |st.listeners| - 1 ==> !IsOpen(st.listeners[i]))
            && (IsOpen(st.listeners[|st.listeners| - 1]) <==> !st.listeners[|st.listeners| - 1].closedByUser)
  {
    var mid, es := Run(before + [Publish]), before + [Publish] + after;
    ExecConcat(INITIAL, before, [Publish]);
    ExecConcat(INITIAL, before + [Publish], after);
    assert Exec(Run(before), [Publish]) == Step(Run(before), Publish);
    assert forall k :: 0 <= k < |after| ==> after[k] == es[|before| + 1 + k];
    forall i | 0 <= i < |mid.listeners| - 1
      ensures !IsOpen(Exec(mid, after).listeners[i])
    {
      DisplacedIsClosed(before + [Publish], after, i);
    }
    LatestStaysOpen(es);
  }

  // ---------------------------------------------------------------- closing by the user

  /** Close, once: the listener is closed and its watcher, unless in the middle of a tick, can return. Nothing else
      changes: the path still names its socket, if it did. */
  lemma UserCloses(es: seq<Event>, i: nat)
    requires i < |Run(es).listeners| && !Run(es).listeners[i].closedByUser
    ensures var before, after := Run(es), Run(es + [CloseByUser(i)]);
            && after.named == before.named && |after.listeners| == |before.listeners|
            && !IsOpen(after.listeners[i]) && after.listeners[i].closedByWatch == before.listeners[i].closedByWatch
            && (forall j :: 0 <= j < |before.listeners| && j != i ==> after.listeners[j] == before.listeners[j])
    ensures At(Run(es), i, Watching) ==> At(Run(es + [CloseByUser(i)] + [SeeClosed(i)]), i, Finished)
  {
    AddEvent(es, CloseByUser(i));
    AddEvent(es + [CloseByUser(i)], SeeClosed(i));
  }

  /** A tick that found the listener's own socket leaves its watcher watching, and nothing closed. */
  lemma TickGoesOn(before: seq<Event>, meanwhile: seq<Event>, i: nat)
    requires Enabled(Run(before), Look(i)) && React(i) !in meanwhile && Run(before).named == Some(i)
    ensures At(Run(before + [Look(i)] + meanwhile + [React(i)]), i, Watching)
  {
    TickClosesExactly(before, meanwhile, i);
    AddEvent(before, Look(i));
    ExecConcat(INITIAL, before + [Look(i)], meanwhile);
    OutcomeIsFixed(Run(before + [Look(i)]), meanwhile, i);
    AddEvent(before + [Look(i)] + meanwhile, React(i));
  }

  /** A watcher whose listener nobody has closed can always begin a tick, or end the one it is in. */
  lemma WatcherGoesOn(es: seq<Event>, i: nat)
    requires i < |Run(es).listeners| && IsOpen(Run(es).listeners[i])
    ensures At(Run(es), i, Watching) ==> At(Run(es + [Look(i)]), i, Looked(Run(es).named == Some(i)))
    ensures At(Run(es), i, Looked(true)) ==> At(Run(es + [React(i)]), i, Watching)
    ensures At(Run(es), i, Looked(false)) ==>
              At(Run(es + [React(i)]), i, Finished) && Run(es + [React(i)]).listeners[i].closedByWatch
    ensures Run(es).listeners[i].watcher != Finished
  {
    ExecKeepsInv(INITIAL, es);
    AddEvent(es, Look(i));
    AddEvent(es, React(i));
  }

  /** A Listen takes the path with an open listener that is being watched. */
  lemma PublishTakesPath(es: seq<Event>)
    ensures var before, after := Run(es), Run(es + [Publish]);
            && after.named == Some(|before.listeners|) && |after.listeners| == |before.listeners| + 1
            && after.listeners[..|before.listeners|] == before.listeners
            && IsOpen(after.listeners[|before.listeners|]) && At(after, |before.listeners|, Watching)
  {
    AddEvent(es, Publish);
  }
}
