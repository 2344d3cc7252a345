/** The cache is invisible in every run exactly when no modification time comes back over different contents. */
module CacheLinearizability {
  import opened Prelude
  import opened Certificates
  import opened FileCache
  import opened CacheRuns

  // ---------------------------------------------------------------- instants of a run

  /** The state after the first t events. */
  function At(load: Loader, es: seq<Event>, t: nat): State
    requires t <= |es|
  {
    Run(load, es[..t])
  }

  function VersionAt(load: Loader, es: seq<Event>, t: nat, f: string): nat
    requires t <= |es|
  {
    Latest(HistoryOf(At(load, es, t).files, f))
  }

  /** At instant t of the run, an uncached LoadCertificate would have given r. */
  predicate WouldLoad(load: Loader, es: seq<Event>, t: nat, f: string, r: LoadResult) {
    t <= |es| && load(Current(At(load, es, t).files, f)) == r
  }

  /** The call's result is that of an uncached load made at one instant between its stat and its return. */
  ghost predicate Linearizable(load: Loader, es: seq<Event>, call: Call)
    requires call.phase.Returned?
  {
    exists t :: call.stat.instant <= t <= call.end.instant && WouldLoad(load, es, t, call.file, call.phase.result)
  }

  lemma RunLast(load: Loader, es: seq<Event>)
    requires es != []
    ensures Run(load, es) == Step(load, Run(load, es[..|es| - 1]), es[|es| - 1])
  {
    var before, last := es[..|es| - 1], es[|es| - 1];
    assert es == before + [last];
    ExecConcat(load, INITIAL, before, [last]);
    assert Exec(load, Run(load, before), [last]) == Step(load, Run(load, before), last);
  }

  lemma {:induction false} ClockCounts(load: Loader, es: seq<Event>)
    ensures Run(load, es).clock == |es|
    decreases es
  {
    if es != [] {
      RunLast(load, es);
      ClockCounts(load, es[..|es| - 1]);
    }
  }

  lemma HistoryAt(load: Loader, es: seq<Event>, i: nat, j: nat, f: string)
    requires i <= j <= |es|
    ensures HistoryOf(At(load, es, i).files, f) <= HistoryOf(At(load, es, j).files, f)
  {
    assert es[..j] == es[..i] + es[i..j];
    ExecConcat(load, INITIAL, es[..i], es[i..j]);
    HistoriesOnlyGrow(load, At(load, es, i), es[i..j], f);
  }

  ghost predicate TrueMark(load: Loader, es: seq<Event>, f: string, m: Mark) {
    m.instant <= |es| && VersionAt(load, es, m.instant, f) == m.version
  }

  ghost predicate MarksFrom(st: State, old_: Call, call: Call) {
    && call.file == old_.file
    && (call.stat == old_.stat || call.stat == Now(st, call.file))
    && (call.end == old_.end || call.end == Now(st, call.file))
  }

  lemma AdvanceMarks(load: Loader, st: State, c: nat)
    requires c < |st.calls|
    ensures |AdvanceCall(load, st, c).calls| == |st.calls|
    ensures MarksFrom(st, st.calls[c], AdvanceCall(load, st, c).calls[c])
    ensures forall d :: 0 <= d < |st.calls| && d != c ==> AdvanceCall(load, st, c).calls[d] == st.calls[d]
  {
    match st.calls[c].phase {
      case Started =>
      case Statted(_) =>
      case Missed(_) =>
      case Loaded(_, _) =>
      case Returned(_) =>
    }
  }

  /** A step sets marks to the present, or leaves them alone. */
  lemma StepMarks(load: Loader, st: State, e: Event, c: nat)
    requires c < |Step(load, st, e).calls|
    ensures var call := Step(load, st, e).calls[c];
            if c < |st.calls| then MarksFrom(st, st.calls[c], call)
            else call.stat == call.end == Now(st, call.file)
  {
    if e.Advance? && e.call < |st.calls| {
      AdvanceMarks(load, st, e.call);
    }
  }

  lemma TrueMarkKept(load: Loader, es: seq<Event>, f: string, m: Mark)
    requires es != [] && TrueMark(load, es[..|es| - 1], f, m)
    ensures TrueMark(load, es, f, m)
  {
    assert es[..|es| - 1][..m.instant] == es[..m.instant];
  }

  /** The version recorded in a mark is the one that was current at its instant. */
  lemma {:induction false} MarksAreTrue(load: Loader, es: seq<Event>, c: nat)
    requires c < |Run(load, es).calls|
    ensures var call := Run(load, es).calls[c];
            TrueMark(load, es, call.file, call.stat) && TrueMark(load, es, call.file, call.end)
    decreases es
  {
    var before, n := es[..|es| - 1], |es| - 1;
    var st, call := Run(load, before), Run(load, es).calls[c];
    RunLast(load, es);
    ClockCounts(load, before);
    StepMarks(load, st, es[n], c);
    assert TrueMark(load, es, call.file, Now(st, call.file));
    if c < |st.calls| {
      MarksAreTrue(load, before, c);
      TrueMarkKept(load, es, call.file, st.calls[c].stat);
      TrueMarkKept(load, es, call.file, st.calls[c].end);
    }
  }

  /** Versions are replaced one at a time: whatever lies between two current versions was current in between. */
  lemma {:induction false} VersionPassed(load: Loader, es: seq<Event>, f: string, i: nat, j: nat, v: nat)
    returns (t: nat)
    requires i <= j <= |es| && VersionAt(load, es, i, f) <= v <= VersionAt(load, es, j, f)
    ensures i <= t <= j && VersionAt(load, es, t, f) == v
    decreases j - i
  {
    if v == VersionAt(load, es, j, f) {
      return j;
    }
    assert es[..j][..j - 1] == es[..j - 1];
    RunLast(load, es[..j]);
    StepGrows(load, At(load, es, j - 1), es[j - 1], f);
    t := VersionPassed(load, es, f, i, j - 1, v);
  }

  // ---------------------------------------------------------------- the exact condition

  /** Version k has the modification time of an earlier version s, and some v in between holds a certificate
      that an uncached load of version k would not give. */
  predicate Recurs(load: Loader, h: History, s: nat, v: nat, k: nat) {
    && s <= v < k < |h|
    && h[s].Present? && h[k].Present? && h[s].modTime == h[k].modTime
    && load(h[v]).Ok? && load(h[v]) != load(h[k])
  }

  ghost predicate NoRecurrence(load: Loader, h: History) {
    forall s, v, k :: !Recurs(load, h, s, v, k)
  }

  /** Distinct modification times are more than enough. */
  lemma DistinctTimesSuffice(load: Loader, h: History)
    requires forall i, j :: 0 <= i < j < |h| && h[i].Present? && h[j].Present? ==> h[i].modTime != h[j].modTime
    ensures NoRecurrence(load, h)
  {
  }

  lemma ExplainedIsFresh(load: Loader, h: History, first: nat, last: nat, r: LoadResult)
    requires NoRecurrence(load, h) && Explained(load, h, first, last, r)
    ensures Fresh(load, h, first, last, r)
  {
    if Stale(load, h, first, r) {
      var s, v :| s <= v < first && Stamped(h, s, h[first].modTime) && Loads(load, h, v, r);
      assert !Recurs(load, h, s, v, first);
      assert Loads(load, h, first, r);
    }
  }

  /** Every completed Load, in every run: as if there were no cache. */
  lemma LoadIsLinearizable(load: Loader, es: seq<Event>, c: nat)
    requires c < |Run(load, es).calls| && Run(load, es).calls[c].phase.Returned?
    requires NoRecurrence(load, HistoryOf(Run(load, es).files, Run(load, es).calls[c].file))
    ensures Linearizable(load, es, Run(load, es).calls[c])
  {
    var st := Run(load, es);
    var call := st.calls[c];
    var f, r, h := call.file, call.phase.result, HistoryOf(st.files, call.file);
    ExecKeepsInv(load, INITIAL, es);
    assert GoodCall(load, st.files, st.clock, call);
    MarksAreTrue(load, es, c);
    ExplainedIsFresh(load, h, call.stat.version, call.end.version, r);
    var v: nat :| call.stat.version <= v <= call.end.version && Loads(load, h, v, r);
    var t := VersionPassed(load, es, f, call.stat.instant, call.end.instant, v);
    assert es[..|es|] == es;
    HistoryAt(load, es, t, |es|, f);
    assert WouldLoad(load, es, t, f, r);
  }

  // ---------------------------------------------------------------- the condition is necessary

  function Publishes(f: string, vs: seq<Version>): (es: seq<Event>)
    ensures |es| == |vs|
  {
    seq(|vs|, i requires 0 <= i < |vs| => Publish(f, vs[i]))
  }

  ghost predicate OnlyPublished(st: State, st': State, f: string, vs: seq<Version>) {
    && st'.calls == st.calls && st'.certs == st.certs
    && HistoryOf(st'.files, f) == HistoryOf(st.files, f) + vs
  }

  lemma {:induction false} PublishesOnlyPublish(load: Loader, st: State, f: string, vs: seq<Version>)
    ensures OnlyPublished(st, Exec(load, st, Publishes(f, vs)), f, vs)
    decreases vs
  {
    if vs == [] {
      assert HistoryOf(st.files, f) + vs == HistoryOf(st.files, f);
    } else {
      assert Publishes(f, vs)[1..] == Publishes(f, vs[1..]);
      var st1 := Step(load, st, Publish(f, vs[0]));
      PublishesOnlyPublish(load, st1, f, vs[1..]);
      assert HistoryOf(st1.files, f) + vs[1..] == HistoryOf(st.files, f) + vs;
    }
  }

  lemma ExecOne(load: Loader, st: State, a: Event)
    ensures Exec(load, st, [a]) == Step(load, st, a)
  {
    assert [a][1..] == [];
  }

  lemma ExecTwo(load: Loader, st: State, a: Event, b: Event)
    ensures Exec(load, st, [a, b]) == Step(load, Step(load, st, a), b)
  {
    assert [a, b][1..] == [b];
    ExecOne(load, Step(load, st, a), b);
  }

  lemma ExecThree(load: Loader, st: State, a: Event, b: Event, c: Event)
    ensures Exec(load, st, [a, b, c]) == Step(load, Step(load, Step(load, st, a), b), c)
  {
    assert [a, b, c][1..] == [b, c];
    ExecTwo(load, Step(load, st, a), b, c);
  }

  /** A first Load stats the current version and misses. */
  lemma FirstCallMisses(load: Loader, st: State, f: string)
    requires st.calls == [] && st.certs == map[] && Current(st.files, f).Present?
    ensures var st' := Exec(load, st, [Begin(f), Advance(0), Advance(0)]);
            && st'.files == st.files && st'.certs == map[] && |st'.calls| == 1
            && st'.calls[0].file == f && st'.calls[0].phase == Missed(Current(st.files, f).modTime)
  {
    ExecThree(load, st, Begin(f), Advance(0), Advance(0));
  }

  /** It then reads the current version and stores it under the earlier time. */
  lemma FirstCallStores(load: Loader, st: State, f: string, modTime: int, cert: Certificate)
    requires |st.calls| == 1 && st.calls[0].file == f && st.calls[0].phase == Missed(modTime) && st.certs == map[]
    requires load(Current(st.files, f)) == Ok(cert)
    ensures var st' := Exec(load, st, [Advance(0), Advance(0)]);
            && st'.files == st.files && |st'.calls| == 1
            && st'.certs == map[f := CachedFile(Some(cert), modTime)]
  {
    ExecTwo(load, st, Advance(0), Advance(0));
  }

  /** A second Load stats a version with that time, and is handed the stored certificate. */
  lemma SecondCallHits(load: Loader, st: State, f: string, cert: Certificate)
    requires |st.calls| == 1 && Current(st.files, f).Present?
    requires st.certs == map[f := CachedFile(Some(cert), Current(st.files, f).modTime)]
    ensures var st' := Exec(load, st, [Begin(f), Advance(1), Advance(1)]);
            && st'.files == st.files && |st'.calls| == 2
            && st'.calls[1].file == f && st'.calls[1].phase == Returned(Ok(cert))
            && st'.calls[1].stat.version == Latest(HistoryOf(st.files, f))
  {
    ExecThree(load, st, Begin(f), Advance(1), Advance(1));
  }

  function MissPart(f: string, h: History, s: nat): seq<Event>
    requires 0 < s < |h|
  {
    Publishes(f, h[1..s + 1]) + [Begin(f), Advance(0), Advance(0)]
  }

  function StorePart(f: string, h: History, s: nat, v: nat): seq<Event>
    requires s <= v < |h|
  {
    Publishes(f, h[s + 1..v + 1]) + [Advance(0), Advance(0)]
  }

  function HitPart(f: string, h: History, v: nat, k: nat): seq<Event>
    requires v < k < |h|
  {
    Publishes(f, h[v + 1..k + 1]) + [Begin(f), Advance(1), Advance(1)]
  }

  /** A Load that stats version s, reads version v and stores it; then a Load while version k is current. */
  function StaleRun(f: string, h: History, s: nat, v: nat, k: nat): seq<Event>
    requires 0 < s <= v < k < |h|
  {
    MissPart(f, h, s) + StorePart(f, h, s, v) + HitPart(f, h, v, k)
  }

  /** Publishing the next versions of a history. */
  lemma PublishedTo(load: Loader, st: State, f: string, h: History, i: nat, j: nat)
    requires i <= j < |h| && HistoryOf(st.files, f) == h[..i + 1]
    ensures var st' := Exec(load, st, Publishes(f, h[i + 1..j + 1]));
            && st'.calls == st.calls && st'.certs == st.certs
            && HistoryOf(st'.files, f) == h[..j + 1] && Current(st'.files, f) == h[j]
  {
    PublishesOnlyPublish(load, st, f, h[i + 1..j + 1]);
    assert h[..i + 1] + h[i + 1..j + 1] == h[..j + 1];
  }

  lemma MissPartMisses(load: Loader, f: string, h: History, s: nat)
    requires h[0] == Missing(NotExist) && 0 < s < |h| && h[s].Present?
    ensures var st := Run(load, MissPart(f, h, s));
            && HistoryOf(st.files, f) == h[..s + 1] && st.certs == map[] && |st.calls| == 1
            && st.calls[0].file == f && st.calls[0].phase == Missed(h[s].modTime)
  {
    var st := Run(load, Publishes(f, h[1..s + 1]));
    assert HistoryOf(INITIAL.files, f) == h[..1];
    PublishedTo(load, INITIAL, f, h, 0, s);
    FirstCallMisses(load, st, f);
    ExecConcat(load, INITIAL, Publishes(f, h[1..s + 1]), [Begin(f), Advance(0), Advance(0)]);
  }

  lemma StorePartStores(load: Loader, st: State, f: string, h: History, s: nat, v: nat)
    requires s <= v < |h| && h[s].Present? && load(h[v]).Ok?
    requires HistoryOf(st.files, f) == h[..s + 1] && st.certs == map[] && |st.calls| == 1
    requires st.calls[0].file == f && st.calls[0].phase == Missed(h[s].modTime)
    ensures var st' := Exec(load, st, StorePart(f, h, s, v));
            && HistoryOf(st'.files, f) == h[..v + 1] && |st'.calls| == 1
            && st'.certs == map[f := CachedFile(Some(load(h[v]).value), h[s].modTime)]
  {
    var st1 := Exec(load, st, Publishes(f, h[s + 1..v + 1]));
    PublishedTo(load, st, f, h, s, v);
    FirstCallStores(load, st1, f, h[s].modTime, load(h[v]).value);
    ExecConcat(load, st, Publishes(f, h[s + 1..v + 1]), [Advance(0), Advance(0)]);
  }

  lemma HitPartHits(load: Loader, st: State, f: string, h: History, v: nat, k: nat)
    requires v < k < |h| && h[k].Present? && load(h[v]).Ok?
    requires HistoryOf(st.files, f) == h[..v + 1] && |st.calls| == 1
    requires st.certs == map[f := CachedFile(Some(load(h[v]).value), h[k].modTime)]
    ensures var st' := Exec(load, st, HitPart(f, h, v, k));
            && HistoryOf(st'.files, f) == h[..k + 1] && |st'.calls| == 2
            && st'.calls[1].file == f && st'.calls[1].phase == Returned(load(h[v])) && st'.calls[1].stat.version == k
  {
    var st1 := Exec(load, st, Publishes(f, h[v + 1..k + 1]));
    PublishedTo(load, st, f, h, v, k);
    SecondCallHits(load, st1, f, load(h[v]).value);
    ExecConcat(load, st, Publishes(f, h[v + 1..k + 1]), [Begin(f), Advance(1), Advance(1)]);
  }

  lemma StaleRunHits(load: Loader, f: string, h: History, s: nat, v: nat, k: nat)
    requires h[0] == Missing(NotExist) && Recurs(load, h, s, v, k)
    ensures 0 < s
    ensures var st := Run(load, StaleRun(f, h, s, v, k));
            && HistoryOf(st.files, f) == h[..k + 1] && |st.calls| == 2
            && st.calls[1].file == f && st.calls[1].phase == Returned(load(h[v])) && st.calls[1].stat.version == k
  {
    MissPartMisses(load, f, h, s);
    var st1 := Run(load, MissPart(f, h, s));
    StorePartStores(load, st1, f, h, s, v);
    var st2 := Exec(load, st1, StorePart(f, h, s, v));
    HitPartHits(load, st2, f, h, v, k);
    ExecConcat(load, INITIAL, MissPart(f, h, s), StorePart(f, h, s, v));
    ExecConcat(load, INITIAL, MissPart(f, h, s) + StorePart(f, h, s, v), HitPart(f, h, v, k));
  }

  /** The version current at an instant, and still at the end, is current at every instant between. */
  lemma StillCurrent(load: Loader, es: seq<Event>, f: string, i: nat, t: nat)
    requires i <= t <= |es|
    requires Latest(HistoryOf(At(load, es, i).files, f)) == Latest(HistoryOf(Run(load, es).files, f))
    ensures Current(At(load, es, t).files, f) == Current(Run(load, es).files, f)
  {
    HistoryAt(load, es, i, t, f);
    HistoryAt(load, es, t, |es|, f);
    assert es[..|es|] == es;
  }

  /** Wherever a history recurs there is a run, publishing just that history, whose last Load is not linearizable. */
  lemma RecurrenceIsVisible(load: Loader, f: string, h: History, s: nat, v: nat, k: nat)
    requires h[0] == Missing(NotExist) && Recurs(load, h, s, v, k)
    ensures 0 < s
    ensures var es := StaleRun(f, h, s, v, k);
            var st := Run(load, es);
            && HistoryOf(st.files, f) <= h && |st.calls| == 2
            && st.calls[1].file == f && st.calls[1].phase.Returned?
            && !Linearizable(load, es, st.calls[1])
  {
    StaleRunHits(load, f, h, s, v, k);
    var es := StaleRun(f, h, s, v, k);
    var call := Run(load, es).calls[1];
    MarksAreTrue(load, es, 1);
    forall t | call.stat.instant <= t <= call.end.instant
      ensures !WouldLoad(load, es, t, f, load(h[v]))
    {
      if t <= |es| {
        StillCurrent(load, es, f, call.stat.instant, t);
      }
    }
  }

  ghost predicate AlwaysLinearizable(load: Loader, f: string, h: History) {
    forall es: seq<Event>, c: nat ::
      && c < |Run(load, es).calls|
      && Run(load, es).calls[c].phase.Returned?
      && Run(load, es).calls[c].file == f
      && HistoryOf(Run(load, es).files, f) <= h
      ==> Linearizable(load, es, Run(load, es).calls[c])
  }

  /** For every file history: all Loads in all runs over it are linearizable if and only if it has no recurrence. */
  lemma FreshnessExactly(load: Loader, f: string, h: History)
    requires h[0] == Missing(NotExist)
    ensures AlwaysLinearizable(load, f, h) <==> NoRecurrence(load, h)
  {
    if NoRecurrence(load, h) {
      forall es: seq<Event>, c: nat |
        && c < |Run(load, es).calls|
        && Run(load, es).calls[c].phase.Returned?
        && Run(load, es).calls[c].file == f
        && HistoryOf(Run(load, es).files, f) <= h
        ensures Linearizable(load, es, Run(load, es).calls[c])
      {
        var h' := HistoryOf(Run(load, es).files, f);
        forall s, v, k
          ensures !Recurs(load, h', s, v, k)
        {
          assert !Recurs(load, h, s, v, k);
        }
        LoadIsLinearizable(load, es, c);
      }
    } else {
      var s, v, k :| Recurs(load, h, s, v, k);
      RecurrenceIsVisible(load, f, h, s, v, k);
    }
  }
}
