/** Runs of any number of Loads and Cleans over files that are being replaced: when is the cache invisible? */
module CacheRuns {
  import opened Prelude
  import opened Certificates
  import opened FileCache

  // ---------------------------------------------------------------- the transition system

  /** Where a Load is: every constructor but Returned is followed by one atomic step. */
  datatype Phase =
    | Started
    | Statted(modTime: int)
    | Missed(modTime: int)
    | Loaded(modTime: int, cert: Certificate)
    | Returned(result: LoadResult)

  /** An instant of the run, and the version of the file that was current then. */
  datatype Mark = Mark(instant: nat, version: nat)

  datatype Call = Call(file: string, phase: Phase, stat: Mark, end: Mark)

  datatype State = State(files: Files, certs: Cache, calls: seq<Call>, clock: nat, crashed: bool)

  const INITIAL := State(map[], map[], [], 0, false)

  /** Replace a file, call Load, let one call take its next step, or run Clean. */
  datatype Event = Publish(file: string, version: Version) | Begin(file: string) | Advance(call: nat) | Clean(now: int)

  function Now(st: State, file: string): Mark {
    Mark(st.clock, Latest(HistoryOf(st.files, file)))
  }

  /** One atomic step of Load: os.Stat, get, reading and parsing the file, add. */
  function AdvanceCall(load: Loader, st: State, c: nat): State
    requires c < |st.calls|
  {
    var call := st.calls[c];
    var now := Now(st, call.file);
    match call.phase
    case Started =>
      (match Current(st.files, call.file)
       case Missing(e) =>
         st.(calls := st.calls[c := call.(phase := Returned(Err(FileFailed(e))), stat := now, end := now)])
       case Present(modTime, _) => st.(calls := st.calls[c := call.(phase := Statted(modTime), stat := now)]))
    case Statted(modTime) =>
      var cached := Lookup(st.certs, call.file);
      if IsFresh(cached, modTime) then
        st.(calls := st.calls[c := call.(phase := Returned(Ok(cached.cert.value)), end := now)])
      else
        st.(calls := st.calls[c := call.(phase := Missed(modTime))])
    case Missed(modTime) =>
      (match load(Current(st.files, call.file))
       case Err(e) => st.(calls := st.calls[c := call.(phase := Returned(Err(e)), end := now)])
       case Ok(cert) => st.(calls := st.calls[c := call.(phase := Loaded(modTime, cert))]))
    case Loaded(modTime, cert) =>
      st.(certs := st.certs[call.file := CachedFile(Some(cert), modTime)],
          calls := st.calls[c := call.(phase := Returned(Ok(cert)), end := now)])
    case Returned(_) => st
  }

  /** The effect of an event, without the passing of time; an event that cannot happen changes nothing. */
  function Act(load: Loader, st: State, e: Event): State {
    match e
    case Publish(f, v) => st.(files := st.files[f := HistoryOf(st.files, f) + [v]])
    case Begin(f) => st.(calls := st.calls + [Call(f, Started, Now(st, f), Now(st, f))])
    case Advance(c) => if c < |st.calls| then AdvanceCall(load, st, c) else st
    case Clean(now) => if Cleanable(st.certs) then st.(certs := Cleaned(st.certs, now)) else st.(crashed := true)
  }

  function Step(load: Loader, st: State, e: Event): State {
    Act(load, st, e).(clock := st.clock + 1)
  }

  function Exec(load: Loader, st: State, es: seq<Event>): State
    decreases es
  {
    if es == [] then st else Exec(load, Step(load, st, es[0]), es[1..])
  }

  function Run(load: Loader, es: seq<Event>): State {
    Exec(load, INITIAL, es)
  }

  lemma {:induction false} ExecConcat(load: Loader, st: State, a: seq<Event>, b: seq<Event>)
    ensures Exec(load, st, a + b) == Exec(load, Exec(load, st, a), b)
    decreases a
  {
    if a == [] {
      assert a + b == b;
    } else {
      assert (a + b)[1..] == a[1..] + b;
      ExecConcat(load, Step(load, st, a[0]), a[1..], b);
    }
  }

  // ---------------------------------------------------------------- the invariant

  ghost predicate GoodCall(load: Loader, files: Files, clock: nat, call: Call) {
    var h := HistoryOf(files, call.file);
    && call.stat.version < |h|
    && call.stat.instant <= clock
    && match call.phase
       case Started => true
       case Statted(modTime) => Stamped(h, call.stat.version, modTime)
       case Missed(modTime) => Stamped(h, call.stat.version, modTime)
       case Loaded(modTime, cert) =>
         Stamped(h, call.stat.version, modTime) && Fresh(load, h, call.stat.version, Latest(h), Ok(cert))
       case Returned(r) =>
         call.stat.instant <= call.end.instant <= clock
         && Explained(load, h, call.stat.version, call.end.version, r)
  }

  ghost predicate Inv(load: Loader, st: State) {
    && !st.crashed
    && GoodCache(load, st.files, st.certs)
    && forall c :: 0 <= c < |st.calls| ==> GoodCall(load, st.files, st.clock, st.calls[c])
  }

  lemma CallGrows(load: Loader, files: Files, files': Files, clock: nat, clock': nat, call: Call)
    requires GoodCall(load, files, clock, call)
    requires HistoryOf(files, call.file) <= HistoryOf(files', call.file) && clock <= clock'
    ensures GoodCall(load, files', clock', call)
  {
    var h, h' := HistoryOf(files, call.file), HistoryOf(files', call.file);
    match call.phase {
      case Loaded(_, cert) =>
        var v :| call.stat.version <= v <= Latest(h) && Loads(load, h, v, Ok(cert));
        assert Loads(load, h', v, Ok(cert));
      case Returned(r) =>
        ExplanationGrows(load, h, h', call.stat.version, call.end.version, r);
      case _ =>
    }
  }

  lemma AdvanceKeepsInv(load: Loader, st: State, c: nat)
    requires Inv(load, st) && c < |st.calls|
    ensures Inv(load, AdvanceCall(load, st, c))
  {
    var call, st' := st.calls[c], AdvanceCall(load, st, c);
    var h := HistoryOf(st.files, call.file);
    assert GoodCall(load, st.files, st.clock, call);
    match call.phase {
      case Started =>
        assert Loads(load, h, Latest(h), load(h[Latest(h)]));
      case Statted(modTime) =>
        if IsFresh(Lookup(st.certs, call.file), modTime) {
          HitIsExplained(load, h, call.stat.version, st.certs[call.file]);
        }
      case Missed(_) =>
        assert Loads(load, h, Latest(h), load(h[Latest(h)]));
      case Loaded(_, cert) =>
        var v :| call.stat.version <= v <= Latest(h) && Loads(load, h, v, Ok(cert));
        AddIsSafe(load, st.files, st.certs, call.file, cert, call.stat.version, v);
      case Returned(_) =>
    }
    if call.phase.Returned? {
      assert st' == st;
    } else {
      assert GoodCall(load, st.files, st.clock, st'.calls[c]);
    }
  }

  lemma PublishKeepsInv(load: Loader, st: State, f: string, v: Version)
    requires Inv(load, st)
    ensures Inv(load, Act(load, st, Publish(f, v)))
  {
    var st' := Act(load, st, Publish(f, v));
    forall g | g in st.certs
      ensures GoodEntry(load, HistoryOf(st'.files, g), st.certs[g])
    {
      EntryGrows(load, HistoryOf(st.files, g), HistoryOf(st'.files, g), st.certs[g]);
    }
    forall c | 0 <= c < |st.calls|
      ensures GoodCall(load, st'.files, st.clock, st.calls[c])
    {
      CallGrows(load, st.files, st'.files, st.clock, st.clock, st.calls[c]);
    }
  }

  lemma TickKeepsInv(load: Loader, st: State)
    requires Inv(load, st)
    ensures Inv(load, st.(clock := st.clock + 1))
  {
    forall c | 0 <= c < |st.calls|
      ensures GoodCall(load, st.files, st.clock + 1, st.calls[c])
    {
      CallGrows(load, st.files, st.files, st.clock, st.clock + 1, st.calls[c]);
    }
  }

  lemma BeginKeepsInv(load: Loader, st: State, f: string)
    requires Inv(load, st)
    ensures Inv(load, Act(load, st, Begin(f)))
  {
  }

  lemma CleanKeepsInv(load: Loader, st: State, now: int)
    requires Inv(load, st)
    ensures Inv(load, Act(load, st, Clean(now)))
  {
  }

  lemma ActKeepsInv(load: Loader, st: State, e: Event)
    requires Inv(load, st)
    ensures Inv(load, Act(load, st, e))
  {
    match e {
      case Publish(f, v) => PublishKeepsInv(load, st, f, v);
      case Begin(f) => BeginKeepsInv(load, st, f);
      case Advance(c) =>
        if c < |st.calls| {
          AdvanceKeepsInv(load, st, c);
        }
      case Clean(now) => CleanKeepsInv(load, st, now);
    }
  }

  lemma StepKeepsInv(load: Loader, st: State, e: Event)
    requires Inv(load, st)
    ensures Inv(load, Step(load, st, e))
  {
    ActKeepsInv(load, st, e);
    TickKeepsInv(load, Act(load, st, e));
  }

  lemma {:induction false} ExecKeepsInv(load: Loader, st: State, es: seq<Event>)
    requires Inv(load, st)
    ensures Inv(load, Exec(load, st, es))
    decreases es
  {
    if es != [] {
      StepKeepsInv(load, st, es[0]);
      ExecKeepsInv(load, Step(load, st, es[0]), es[1..]);
    }
  }

  /** Clean never meets an entry without a leaf, in any run. */
  lemma CleanNeverPanics(load: Loader, es: seq<Event>)
    ensures !Run(load, es).crashed && Cleanable(Run(load, es).certs)
  {
    ExecKeepsInv(load, INITIAL, es);
  }

  lemma StepGrows(load: Loader, st: State, e: Event, f: string)
    ensures HistoryOf(st.files, f) <= HistoryOf(Step(load, st, e).files, f)
    ensures Latest(HistoryOf(Step(load, st, e).files, f)) <= Latest(HistoryOf(st.files, f)) + 1
  {
  }

  lemma {:induction false} HistoriesOnlyGrow(load: Loader, st: State, es: seq<Event>, f: string)
    ensures HistoryOf(st.files, f) <= HistoryOf(Exec(load, st, es).files, f)
    decreases es
  {
    if es != [] {
      StepGrows(load, st, es[0], f);
      HistoriesOnlyGrow(load, Step(load, st, es[0]), es[1..], f);
    }
  }

  /** What every other thread does between two steps of a Load is what Load relies on. */
  lemma OthersRespectRely(load: Loader, st: State, es: seq<Event>)
    requires Inv(load, st)
    ensures var st' := Exec(load, st, es);
            Rely(load, World(st.files, st.certs), World(st'.files, st'.certs))
  {
    ExecKeepsInv(load, st, es);
    forall f {
      HistoriesOnlyGrow(load, st, es, f);
    }
  }

  // ---------------------------------------------------------------- one Load by itself

  /** What a Load that nothing interrupts gives, and the cache it leaves. */
  function Alone(load: Loader, files: Files, certs: Cache, f: string): (LoadResult, Cache) {
    var current := Current(files, f);
    if current.Missing? then (Err(FileFailed(current.error)), certs)
    else if Holds(certs, f, current.modTime) then (Ok(certs[f].cert.value), certs)
    else
      var r := load(current);
      (r, if r.Ok? then certs[f := CachedFile(Some(r.value), current.modTime)] else certs)
  }

  lemma ExecCons(load: Loader, st: State, e: Event, es: seq<Event>)
    ensures Exec(load, st, [e] + es) == Exec(load, Step(load, st, e), es)
  {
    assert ([e] + es)[1..] == es;
  }

  /** Call c has come to this phase with this cache, and nothing else has changed. */
  predicate Reached(before: State, after: State, c: nat, f: string, phase: Phase, certs: Cache) {
    && c < |before.calls| == |after.calls| && after.calls[..c] == before.calls[..c]
    && before.calls[c].file == f == after.calls[c].file && after.calls[c].phase == phase
    && after.files == before.files && after.certs == certs && after.crashed == before.crashed
  }

  /** What follows each phase, by itself. */
  function NextPhase(load: Loader, files: Files, certs: Cache, f: string, phase: Phase): (Phase, Cache) {
    var current := Current(files, f);
    match phase
    case Started =>
      (if current.Missing? then Returned(Err(FileFailed(current.error))) else Statted(current.modTime), certs)
    case Statted(time) => (if Holds(certs, f, time) then Returned(Ok(certs[f].cert.value)) else Missed(time), certs)
    case Missed(time) =>
      (if load(current).Ok? then Loaded(time, load(current).value) else Returned(Err(load(current).error)), certs)
    case Loaded(time, cert) => (Returned(Ok(cert)), certs[f := CachedFile(Some(cert), time)])
    case Returned(_) => (phase, certs)
  }

  lemma CallStep(load: Loader, st: State, c: nat, f: string)
    requires c < |st.calls| && st.calls[c].file == f
    ensures var (phase, certs) := NextPhase(load, st.files, st.certs, f, st.calls[c].phase);
            var st' := AdvanceCall(load, st, c);
            && st'.calls == st.calls[c := st'.calls[c]] && st'.calls[c].file == f && st'.calls[c].phase == phase
            && st'.files == st.files && st'.certs == certs && st'.crashed == st.crashed
  {
    match st.calls[c].phase {
      case Started =>
      case Statted(_) =>
      case Missed(_) =>
      case Loaded(_, _) =>
      case Returned(_) => assert st.calls[c := st.calls[c]] == st.calls;
    }
  }

  lemma OneStep(load: Loader, st: State, c: nat, f: string)
    requires c < |st.calls| && st.calls[c].file == f
    ensures var (phase, certs) := NextPhase(load, st.files, st.certs, f, st.calls[c].phase);
            Reached(st, Step(load, st, Advance(c)), c, f, phase, certs)
  {
    CallStep(load, st, c, f);
  }

  function Advances(c: nat, n: nat): seq<Event> {
    if n == 0 then [] else [Advance(c)] + Advances(c, n - 1)
  }

  function Phases(load: Loader, files: Files, certs: Cache, f: string, phase: Phase, n: nat): (Phase, Cache)
    decreases n
  {
    if n == 0 then (phase, certs)
    else
      var next := NextPhase(load, files, certs, f, phase);
      Phases(load, files, next.1, f, next.0, n - 1)
  }

  lemma {:induction false} StepsInARow(load: Loader, st: State, c: nat, f: string, n: nat)
    requires c < |st.calls| && st.calls[c].file == f
    ensures var (phase, certs) := Phases(load, st.files, st.certs, f, st.calls[c].phase, n);
            Reached(st, Exec(load, st, Advances(c, n)), c, f, phase, certs)
    decreases n
  {
    if n > 0 {
      OneStep(load, st, c, f);
      ExecCons(load, st, Advance(c), Advances(c, n - 1));
      StepsInARow(load, Step(load, st, Advance(c)), c, f, n - 1);
    }
  }

  lemma FourPhases(load: Loader, files: Files, certs: Cache, f: string)
    ensures var (r, after) := Alone(load, files, certs, f);
            Phases(load, files, certs, f, Started, 4) == (Returned(r), after)
  {
    var p1 := NextPhase(load, files, certs, f, Started);
    var p2 := NextPhase(load, files, p1.1, f, p1.0);
    var p3 := NextPhase(load, files, p2.1, f, p2.0);
    var p4 := NextPhase(load, files, p3.1, f, p3.0);
    assert Phases(load, files, p4.1, f, p4.0, 0) == p4;
    assert Phases(load, files, p3.1, f, p3.0, 1) == p4;
    assert Phases(load, files, p2.1, f, p2.0, 2) == p4;
    assert Phases(load, files, p1.1, f, p1.0, 3) == p4;
  }

  /** The steps of a Load in a row: at most four, and it has returned, with the certificate cached for the file's
      current time if there is one, and else with what the file holds, which is then cached under that time. */
  lemma LoadRunsAlone(load: Loader, st: State, f: string)
    ensures var c, st' := |st.calls|, Exec(load, st, [Begin(f)] + Advances(|st.calls|, 4));
            var (r, certs) := Alone(load, st.files, st.certs, f);
            && |st'.calls| == c + 1 && st'.calls[..c] == st.calls
            && st'.calls[c].file == f && st'.calls[c].phase == Returned(r)
            && st'.files == st.files && st'.certs == certs && st'.crashed == st.crashed
  {
    var c := |st.calls|;
    ExecCons(load, st, Begin(f), Advances(c, 4));
    StepsInARow(load, Step(load, st, Begin(f)), c, f, 4);
    FourPhases(load, st.files, st.certs, f);
  }

  /** Clean removes exactly the entries that have expired, and touches nothing else. */
  lemma CleanRuns(load: Loader, es: seq<Event>, now: int)
    ensures var before, after := Run(load, es), Step(load, Run(load, es), Clean(now));
            && after.files == before.files && after.calls == before.calls
            && (forall f :: f in before.certs ==> before.certs[f].cert.Some? && before.certs[f].cert.value.leaf.Some?)
            && (forall f :: f in after.certs <==>
                  f in before.certs && now <= before.certs[f].cert.value.leaf.value.notAfter)
            && (forall f :: f in after.certs ==> after.certs[f] == before.certs[f])
  {
    CleanNeverPanics(load, es);
  }
}
