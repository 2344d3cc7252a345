/** Concurrent Close calls on a tree of proxy and merged listeners: proxy/listener.go, multi.go and unix/listener.go
    together. */
module CloseTree {
  import opened Prelude

  /** A leaf closes its channel without a guard; a proxy or merged listener guards its own with a mutex and a check. */
  datatype Tree = Leaf | Proxy(inner: Tree) | Multi(inners: seq<Tree>)

  /** The listeners that Close closes in turn. */
  function Children(t: Tree): seq<Tree> {
    match t
    case Leaf => []
    case Proxy(inner) => [inner]
    case Multi(inners) => inners
  }

  /** A node, by the child indices that lead to it: every node occurs once. */
  type Path = seq<nat>

  function Node(t: Tree, p: Path): Option<Tree>
    decreases |p|
  {
    if p == [] then Some(t)
    else match Node(t, p[..|p| - 1])
      case None => None
      case Some(parent) => if p[|p| - 1] < |Children(parent)| then Some(Children(parent)[p[|p| - 1]]) else None
  }

  function Arity(t: Tree, p: Path): nat {
    match Node(t, p)
    case None => 0
    case Some(n) => |Children(n)|
  }

  predicate IsLeaf(t: Tree, p: Path) {
    Node(t, p) == Some(Leaf)
  }

  predicate IsInner(t: Tree, p: Path) {
    Node(t, p).Some? && !IsLeaf(t, p)
  }

  /** One activation of Close: before the mutex (or before a leaf's close), holding it before the check, or holding it
      while closing child number next. */
  datatype Frame = Enter(path: Path) | Check(path: Path) | Visit(path: Path, next: nat)

  datatype Outcome = Running | Won | Refused

  /** A Close call on the root: its activations, innermost last. */
  datatype Call = Call(stack: seq<Frame>, outcome: Outcome)

  /** closes counts channel closes at each node; won and returned count the activations that found the node open and
      those that have returned. */
  datatype State = State(
    done: set<Path>,
    held: set<Path>,
    closes: multiset<Path>,
    won: multiset<Path>,
    returned: multiset<Path>,
    calls: seq<Call>)

  const INITIAL := State({}, {}, multiset{}, multiset{}, multiset{}, [])

  datatype Event = Begin | Advance(call: nat)

  function Top(c: Call): Frame
    requires c.stack != []
  {
    c.stack[|c.stack| - 1]
  }

  predicate Enabled(t: Tree, st: State, k: nat) {
    && k < |st.calls|
    && st.calls[k].stack != []
    && (Top(st.calls[k]).Enter? ==> IsLeaf(t, Top(st.calls[k]).path) || Top(st.calls[k]).path !in st.held)
  }

  /** The call with its innermost activation replaced. */
  function Replace(c: Call, frames: seq<Frame>, outcome: Outcome): Call
    requires c.stack != []
  {
    var stack := c.stack[..|c.stack| - 1] + frames;
    Call(stack, if stack == [] then outcome else c.outcome)
  }

  /** The activations that take the place of innermost activation f. */
  function NewFrames(t: Tree, st: State, f: Frame): seq<Frame> {
    match f
    case Enter(p) => if IsLeaf(t, p) then [] else [Check(p)]
    case Check(p) => if p in st.done then [] else [Visit(p, 0)]
    case Visit(p, next) => if next < Arity(t, p) then [Visit(p, next + 1), Enter(p + [next])] else []
  }

  /** What a step does besides moving its call on. */
  function Effect(t: Tree, st: State, f: Frame): State {
    match f
    case Enter(p) =>
      if IsLeaf(t, p) then st.(closes := st.closes + multiset{p}, returned := st.returned + multiset{p})
      else st.(held := st.held + {p})
    case Check(p) =>
      if p in st.done then st.(held := st.held - {p}, returned := st.returned + multiset{p})
      else st.(done := st.done + {p}, closes := st.closes + multiset{p})
    case Visit(p, next) =>
      if next < Arity(t, p) then st
      else st.(held := st.held - {p}, won := st.won + multiset{p}, returned := st.returned + multiset{p})
  }

  function AdvanceCall(t: Tree, st: State, k: nat): State
    requires Enabled(t, st, k)
  {
    var call := st.calls[k];
    var f := Top(call);
    Effect(t, st, f).(calls := st.calls[k := Replace(call, NewFrames(t, st, f), if f.Check? then Refused else Won)])
  }

  function Step(t: Tree, st: State, e: Event): State {
    match e
    case Begin => st.(calls := st.calls + [Call([Enter([])], Running)])
    case Advance(k) => if Enabled(t, st, k) then AdvanceCall(t, st, k) else st
  }

  function Exec(t: Tree, st: State, es: seq<Event>): State
    decreases es
  {
    if es == [] then st else Exec(t, Step(t, st, es[0]), es[1..])
  }

  function Run(t: Tree, es: seq<Event>): State {
    Exec(t, INITIAL, es)
  }

  // ---------------------------------------------------------------- weighing frames

  function Weigh(stack: seq<Frame>, w: Frame -> nat): nat {
    if stack == [] then 0 else Weigh(stack[..|stack| - 1], w) + w(stack[|stack| - 1])
  }

  function Total(calls: seq<Call>, g: Call -> nat): nat {
    if calls == [] then 0 else Total(calls[..|calls| - 1], g) + g(calls[|calls| - 1])
  }

  /** The weight of all activations of all calls. */
  function All(calls: seq<Call>, w: Frame -> nat): nat {
    Total(calls, StackWeight(w))
  }

  function StackWeight(w: Frame -> nat): Call -> nat {
    (c: Call) => Weigh(c.stack, w)
  }

  lemma {:induction false} WeighConcat(a: seq<Frame>, b: seq<Frame>, w: Frame -> nat)
    ensures Weigh(a + b, w) == Weigh(a, w) + Weigh(b, w)
    decreases b
  {
    if b == [] {
      assert a + b == a;
    } else {
      assert (a + b)[..|a + b| - 1] == a + b[..|b| - 1];
      WeighConcat(a, b[..|b| - 1], w);
    }
  }

  lemma {:induction false} TotalUpdate(calls: seq<Call>, k: nat, c: Call, g: Call -> nat)
    requires k < |calls|
    ensures Total(calls[k := c], g) + g(calls[k]) == Total(calls, g) + g(c)
    decreases calls
  {
    var n := |calls| - 1;
    if k == n {
      assert calls[k := c][..n] == calls[..n];
    } else {
      TotalUpdate(calls[..n], k, c, g);
      assert calls[k := c][..n] == calls[..n][k := c];
    }
  }

  lemma {:induction false} TotalBoundsTerm(calls: seq<Call>, k: nat, g: Call -> nat)
    requires k < |calls|
    ensures g(calls[k]) <= Total(calls, g)
    decreases calls
  {
    if k < |calls| - 1 {
      TotalBoundsTerm(calls[..|calls| - 1], k, g);
    }
  }

  lemma {:induction false} TotalPositive(calls: seq<Call>, g: Call -> nat) returns (k: nat)
    requires Total(calls, g) > 0
    ensures k < |calls| && g(calls[k]) > 0
    decreases calls
  {
    if g(calls[|calls| - 1]) > 0 {
      return |calls| - 1;
    }
    k := TotalPositive(calls[..|calls| - 1], g);
  }

  lemma {:induction false} WeighPositive(stack: seq<Frame>, w: Frame -> nat) returns (j: nat)
    requires Weigh(stack, w) > 0
    ensures j < |stack| && w(stack[j]) > 0
    decreases stack
  {
    if w(stack[|stack| - 1]) > 0 {
      return |stack| - 1;
    }
    j := WeighPositive(stack[..|stack| - 1], w);
  }

  lemma {:induction false} WeighBoundsTerm(stack: seq<Frame>, j: nat, w: Frame -> nat)
    requires j < |stack|
    ensures w(stack[j]) <= Weigh(stack, w)
    decreases stack
  {
    if j < |stack| - 1 {
      WeighBoundsTerm(stack[..|stack| - 1], j, w);
    }
  }

  /** Replacing the innermost activation of one call. */
  lemma ReplaceWeighs(calls: seq<Call>, k: nat, frames: seq<Frame>, outcome: Outcome, w: Frame -> nat)
    requires k < |calls| && calls[k].stack != []
    ensures All(calls[k := Replace(calls[k], frames, outcome)], w) + w(Top(calls[k]))
            == All(calls, w) + Weigh(frames, w)
  {
    var c := Replace(calls[k], frames, outcome);
    TotalUpdate(calls, k, c, StackWeight(w));
    WeighConcat(calls[k].stack[..|calls[k].stack| - 1], frames, w);
  }

  // ---------------------------------------------------------------- the invariant

  /** The activations on p. */
  function On(p: Path): Frame -> nat {
    (f: Frame) => if f.path == p then 1 else 0
  }

  /** Those that found p open. */
  function Visiting(p: Path): Frame -> nat {
    (f: Frame) => if f.Visit? && f.path == p then 1 else 0
  }

  /** Those that have begun closing child i of p. */
  function Passed(p: Path, i: nat): Frame -> nat {
    (f: Frame) => if f.Visit? && f.path == p && f.next > i then 1 else 0
  }

  /** Those that hold the mutex of p. */
  function Holding(p: Path): Frame -> nat {
    (f: Frame) => if !f.Enter? && f.path == p then 1 else 0
  }

  /** The outermost activation is on the root; each further one is on the child its predecessor is closing. */
  predicate GoodStack(ok: Frame -> bool, stack: seq<Frame>) {
    stack == [] ||
    var n := |stack| - 1;
    && ok(stack[n])
    && (if n == 0 then stack[0].path == [] else IsClosing(stack[n - 1], stack[n].path))
    && GoodStack(ok, stack[..n])
  }

  predicate IsClosing(f: Frame, child: Path) {
    f.Visit? && f.next > 0 && child == f.path + [f.next - 1]
  }

  predicate GoodFrame(t: Tree, f: Frame) {
    && Node(t, f.path).Some?
    && (!f.Enter? ==> IsInner(t, f.path))
    && (f.Visit? ==> f.next <= Arity(t, f.path))
  }

  function Good(t: Tree): Frame -> bool {
    (f: Frame) => GoodFrame(t, f)
  }

  predicate GoodCall(t: Tree, c: Call) {
    GoodStack(Good(t), c.stack) && (c.outcome == Running <==> c.stack != [])
  }

  /** At an inner node: one activation at most finds it open, and the channel is closed by that one. */
  predicate InnerInv(st: State, p: Path) {
    && All(st.calls, Visiting(p)) + st.won[p] == st.closes[p] == (if p in st.done then 1 else 0)
    && All(st.calls, Holding(p)) == (if p in st.held then 1 else 0)
    && (st.returned[p] > 0 ==> p in st.done)
  }

  /** Child i of p has been closed, or is being closed, once for each activation that got past it. */
  predicate ChildInv(st: State, p: Path, i: nat) {
    All(st.calls, On(p + [i])) + st.returned[p + [i]] == All(st.calls, Passed(p, i)) + st.won[p]
  }

  predicate LeafInv(st: State, p: Path) {
    st.closes[p] == st.returned[p]
  }

  function Winner(c: Call): nat {
    if c.outcome == Won then 1 else 0
  }

  ghost predicate Inv(t: Tree, st: State) {
    && (forall k :: 0 <= k < |st.calls| ==> GoodCall(t, st.calls[k]))
    && (forall p :: IsInner(t, p) ==> InnerInv(st, p))
    && (forall p, i :: IsInner(t, p) && 0 <= i < Arity(t, p) ==> ChildInv(st, p, i))
    && (forall p :: IsLeaf(t, p) ==> LeafInv(st, p))
    && All(st.calls, On([])) + st.returned[[]] == |st.calls|
    && Total(st.calls, Winner) == st.won[[]]
  }

  // ---------------------------------------------------------------- every step keeps the invariant

  lemma NodeChild(t: Tree, p: Path, i: nat)
    requires i < Arity(t, p)
    ensures Node(t, p + [i]) == Some(Children(Node(t, p).value)[i])
  {
    assert (p + [i])[..|p|] == p;
  }

  /** What the new innermost activations weigh, for the two shapes a step leaves. */
  lemma WeighSmall(a: Frame, b: Frame, w: Frame -> nat)
    ensures Weigh([], w) == 0
    ensures Weigh([a], w) == w(a)
    ensures Weigh([a, b], w) == w(a) + w(b)
  {
    assert [a, b][..1] == [a] && [a][..0] == [];
    assert Weigh([a, b], w) == Weigh([a], w) + w(b);
  }

  lemma WinnersAfter(calls: seq<Call>, k: nat, frames: seq<Frame>, outcome: Outcome)
    requires k < |calls| && calls[k].stack != [] && calls[k].outcome == Running
    ensures Total(calls[k := Replace(calls[k], frames, outcome)], Winner)
            == Total(calls, Winner) + if |calls[k].stack| == 1 && frames == [] && outcome == Won then 1 else 0
  {
    TotalUpdate(calls, k, Replace(calls[k], frames, outcome), Winner);
  }

  lemma GoodAfterPush(ok: Frame -> bool, below: seq<Frame>, f: Frame)
    requires GoodStack(ok, below) && ok(f)
    requires if below == [] then f.path == [] else IsClosing(below[|below| - 1], f.path)
    ensures GoodStack(ok, below + [f])
  {
    assert (below + [f])[..|below|] == below;
  }

  lemma GoodAfterMove(ok: Frame -> bool, stack: seq<Frame>, f: Frame)
    requires GoodStack(ok, stack) && stack != [] && f.path == stack[|stack| - 1].path && ok(f)
    ensures GoodStack(ok, stack[..|stack| - 1] + [f])
  {
    GoodAfterPush(ok, stack[..|stack| - 1], f);
  }

  lemma GoodAfterPop(ok: Frame -> bool, stack: seq<Frame>)
    requires stack != [] && GoodStack(ok, stack)
    ensures GoodStack(ok, stack[..|stack| - 1]) && ok(stack[|stack| - 1])
  {
  }

  /** The shapes NewFrames can have: nothing, another activation on the same node, or that and one on a child. */
  predicate Replaces(ok: Frame -> bool, f: Frame, frames: seq<Frame>) {
    || frames == []
    || (|frames| == 1 && ok(frames[0]) && frames[0].path == f.path)
    || (|frames| == 2 && ok(frames[0]) && ok(frames[1]) && frames[0].path == f.path
        && IsClosing(frames[0], frames[1].path))
  }

  lemma VisitFrames(t: Tree, p: Path, next: nat)
    requires GoodFrame(t, Visit(p, next)) && next < Arity(t, p)
    ensures Replaces(Good(t), Visit(p, next), [Visit(p, next + 1), Enter(p + [next])])
  {
    NodeChild(t, p, next);
  }

  lemma FramesAfter(t: Tree, st: State, f: Frame)
    requires GoodFrame(t, f)
    ensures Replaces(Good(t), f, NewFrames(t, st, f))
  {
    if f.Visit? && f.next < Arity(t, f.path) {
      VisitFrames(t, f.path, f.next);
    }
  }

  lemma GoodAfterChild(ok: Frame -> bool, stack: seq<Frame>, f: Frame, child: Frame)
    requires stack != [] && GoodStack(ok, stack) && f.path == stack[|stack| - 1].path && ok(f)
    requires ok(child) && IsClosing(f, child.path)
    ensures GoodStack(ok, stack[..|stack| - 1] + [f, child])
  {
    var moved := stack[..|stack| - 1] + [f];
    GoodAfterMove(ok, stack, f);
    GoodAfterPush(ok, moved, child);
    assert moved + [child] == stack[..|stack| - 1] + [f, child];
  }

  lemma GoodAfterReplace(ok: Frame -> bool, stack: seq<Frame>, frames: seq<Frame>)
    requires stack != [] && GoodStack(ok, stack) && Replaces(ok, stack[|stack| - 1], frames)
    ensures GoodStack(ok, stack[..|stack| - 1] + frames)
  {
    if |frames| == 0 {
      GoodAfterPop(ok, stack);
      assert stack[..|stack| - 1] + frames == stack[..|stack| - 1];
    } else if |frames| == 1 {
      GoodAfterMove(ok, stack, frames[0]);
      assert frames == [frames[0]];
    } else {
      GoodAfterChild(ok, stack, frames[0], frames[1]);
      assert frames == [frames[0], frames[1]];
    }
  }

  lemma CallAfterReplace(t: Tree, c: Call, frames: seq<Frame>, outcome: Outcome)
    requires GoodCall(t, c) && c.stack != [] && Replaces(Good(t), Top(c), frames) && outcome != Running
    ensures GoodCall(t, Replace(c, frames, outcome))
  {
    GoodAfterReplace(Good(t), c.stack, frames);
  }

  /** The stacks stay well formed. */
  lemma StackAfter(t: Tree, st: State, k: nat)
    requires k < |st.calls| && GoodCall(t, st.calls[k]) && Enabled(t, st, k)
    ensures GoodCall(t, AdvanceCall(t, st, k).calls[k])
  {
    var call, f := st.calls[k], Top(st.calls[k]);
    GoodAfterPop(Good(t), call.stack);
    FramesAfter(t, st, f);
    CallAfterReplace(t, call, NewFrames(t, st, f), if f.Check? then Refused else Won);
  }

  function FramesWeight(frames: seq<Frame>, w: Frame -> nat): nat
    requires |frames| <= 2
  {
    if |frames| == 0 then 0 else if |frames| == 1 then w(frames[0]) else w(frames[0]) + w(frames[1])
  }

  lemma WeightAfter(t: Tree, st: State, k: nat, w: Frame -> nat)
    requires Enabled(t, st, k)
    ensures var f := Top(st.calls[k]);
            && |NewFrames(t, st, f)| <= 2
            && All(AdvanceCall(t, st, k).calls, w) + w(f) == All(st.calls, w) + FramesWeight(NewFrames(t, st, f), w)
  {
    var f := Top(st.calls[k]);
    var frames := NewFrames(t, st, f);
    ReplaceWeighs(st.calls, k, frames, if f.Check? then Refused else Won, w);
    if |frames| == 1 {
      assert frames == [frames[0]];
      WeighSmall(frames[0], frames[0], w);
    } else if |frames| == 2 {
      assert frames == [frames[0], frames[1]];
      WeighSmall(frames[0], frames[1], w);
    }
  }

  lemma InnerAfter(t: Tree, st: State, k: nat, p: Path)
    requires Enabled(t, st, k) && IsInner(t, p) && InnerInv(st, p)
    ensures InnerInv(AdvanceCall(t, st, k), p)
  {
    WeightAfter(t, st, k, Visiting(p));
    WeightAfter(t, st, k, Holding(p));
  }

  lemma ChildPath(p: Path, i: nat, q: Path, j: nat)
    ensures q + [j] == p + [i] <==> q == p && j == i
    ensures q + [j] != q && p + [i] != p
  {
    assert (q + [j])[..|q|] == q && (p + [i])[..|p|] == p;
    assert |q + [j]| == |q| + 1 && (q + [j])[|q|] == j && (p + [i])[|p|] == i;
    assert |p + [i]| == |p| + 1;
  }

  /** The books on child i of p: activations on it, begun by p and returned. */
  predicate Balanced(t: Tree, st: State, f: Frame, p: Path, i: nat) {
    var c, frames, st' := p + [i], NewFrames(t, st, f), Effect(t, st, f);
    && |frames| <= 2
    && FramesWeight(frames, On(c)) + st'.returned[c] + Passed(p, i)(f) + st.won[p]
       == FramesWeight(frames, Passed(p, i)) + st'.won[p] + On(c)(f) + st.returned[c]
  }

  lemma NextVisitBalance(t: Tree, st: State, q: Path, next: nat, p: Path, i: nat)
    requires next < Arity(t, q)
    ensures Balanced(t, st, Visit(q, next), p, i)
  {
    var c, f, again, enter := p + [i], Visit(q, next), Visit(q, next + 1), Enter(q + [next]);
    ChildPath(p, i, q, next);
    assert NewFrames(t, st, f) == [again, enter] && Effect(t, st, f) == st;
    assert On(c)(again) == On(c)(f);
    assert On(c)(enter) == Passed(p, i)(again) - Passed(p, i)(f);
    assert Passed(p, i)(enter) == 0;
  }

  lemma LastVisitBalance(t: Tree, st: State, q: Path, next: nat, p: Path, i: nat)
    requires i < Arity(t, p) && next >= Arity(t, q)
    ensures Balanced(t, st, Visit(q, next), p, i)
  {
    var c, f := p + [i], Visit(q, next);
    ChildPath(p, i, q, next);
    assert NewFrames(t, st, f) == [];
    assert Effect(t, st, f).won[p] == st.won[p] + Passed(p, i)(f);
    assert Effect(t, st, f).returned[c] == st.returned[c] + On(c)(f);
  }

  lemma CheckBalance(t: Tree, st: State, q: Path, p: Path, i: nat)
    ensures Balanced(t, st, Check(q), p, i)
  {
    ChildPath(p, i, q, 0);
  }

  /** A step pushes an activation on child i of p just when it gets past it, and drops one just when it returns. */
  lemma ChildBalance(t: Tree, st: State, f: Frame, p: Path, i: nat)
    requires i < Arity(t, p)
    ensures Balanced(t, st, f, p, i)
  {
    match f {
      case Enter(_) =>
      case Check(q) => CheckBalance(t, st, q, p, i);
      case Visit(q, next) =>
        if next < Arity(t, q) {
          NextVisitBalance(t, st, q, next, p, i);
        } else {
          LastVisitBalance(t, st, q, next, p, i);
        }
    }
  }

  lemma ChildAfter(t: Tree, st: State, k: nat, p: Path, i: nat)
    requires Enabled(t, st, k) && i < Arity(t, p) && ChildInv(st, p, i)
    ensures ChildInv(AdvanceCall(t, st, k), p, i)
  {
    var c, f := p + [i], Top(st.calls[k]);
    ChildBalance(t, st, f, p, i);
    WeightAfter(t, st, k, On(c));
    WeightAfter(t, st, k, Passed(p, i));
  }

  lemma RootAfter(t: Tree, st: State, k: nat)
    requires Enabled(t, st, k) && All(st.calls, On([])) + st.returned[[]] == |st.calls|
    ensures var st' := AdvanceCall(t, st, k);
            All(st'.calls, On([])) + st'.returned[[]] == |st'.calls|
  {
    WeightAfter(t, st, k, On([]));
  }

  lemma WonAfter(t: Tree, st: State, k: nat)
    requires IsInner(t, []) && Enabled(t, st, k) && GoodCall(t, st.calls[k]) && Total(st.calls, Winner) == st.won[[]]
    ensures Total(AdvanceCall(t, st, k).calls, Winner) == AdvanceCall(t, st, k).won[[]]
  {
    var call := st.calls[k];
    var f := Top(call);
    WinnersAfter(st.calls, k, NewFrames(t, st, f), if f.Check? then Refused else Won);
    var n := |call.stack| - 1;
    assert n > 0 ==> IsClosing(call.stack[n - 1], f.path);
    assert f.path == [] <==> n == 0;
  }

  lemma AdvanceKeepsInv(t: Tree, st: State, k: nat)
    requires IsInner(t, []) && Inv(t, st) && Enabled(t, st, k)
    ensures Inv(t, AdvanceCall(t, st, k))
  {
    var st' := AdvanceCall(t, st, k);
    StackAfter(t, st, k);
    forall p | IsInner(t, p)
      ensures InnerInv(st', p)
    {
      InnerAfter(t, st, k, p);
    }
    forall p, i: nat | IsInner(t, p) && i < Arity(t, p)
      ensures ChildInv(st', p, i)
    {
      ChildAfter(t, st, k, p, i);
    }
    RootAfter(t, st, k);
    WonAfter(t, st, k);
    forall p | IsLeaf(t, p)
      ensures LeafInv(st', p)
    {
      LeafAfter(t, st, k, p);
    }
  }

  lemma LeafAfter(t: Tree, st: State, k: nat, p: Path)
    requires Enabled(t, st, k) && GoodCall(t, st.calls[k]) && IsLeaf(t, p) && LeafInv(st, p)
    ensures LeafInv(AdvanceCall(t, st, k), p)
  {
    var stack := st.calls[k].stack;
    GoodAfterPop(Good(t), stack);
  }

  lemma BeginKeepsInv(t: Tree, st: State)
    requires Inv(t, st)
    ensures Inv(t, Step(t, st, Begin))
  {
    var st', c := Step(t, st, Begin), Call([Enter([])], Running);
    assert st'.calls[..|st.calls|] == st.calls;
    forall w: Frame -> nat
      ensures All(st'.calls, w) == All(st.calls, w) + w(Enter([]))
    {
      WeighSmall(Enter([]), Enter([]), w);
    }
    assert GoodStack(Good(t), c.stack);
    forall p | IsInner(t, p)
      ensures InnerInv(st', p)
    {
      assert InnerInv(st, p);
    }
    forall p, i: nat | IsInner(t, p) && i < Arity(t, p)
      ensures ChildInv(st', p, i)
    {
      assert ChildInv(st, p, i);
      assert |p + [i]| > 0;
    }
    forall p | IsLeaf(t, p)
      ensures LeafInv(st', p)
    {
      assert LeafInv(st, p);
    }
  }

  lemma {:induction false} ExecKeepsInv(t: Tree, st: State, es: seq<Event>)
    requires IsInner(t, []) && Inv(t, st)
    ensures Inv(t, Exec(t, st, es))
    decreases es
  {
    if es != [] {
      match es[0] {
        case Begin => BeginKeepsInv(t, st);
        case Advance(k) =>
          if Enabled(t, st, k) {
            AdvanceKeepsInv(t, st, k);
          }
      }
      ExecKeepsInv(t, Step(t, st, es[0]), es[1..]);
    }
  }

  lemma ReachableInv(t: Tree, es: seq<Event>)
    requires t != Leaf
    ensures IsInner(t, []) && Inv(t, Run(t, es))
  {
    ExecKeepsInv(t, INITIAL, es);
  }

  // ---------------------------------------------------------------- theorems

  /** An activation below the root has an activation beneath it that is closing it. */
  lemma {:induction false} ParentIsVisiting(ok: Frame -> bool, stack: seq<Frame>, p: Path, i: nat)
    requires GoodStack(ok, stack) && Weigh(stack, On(p + [i])) > 0
    ensures Weigh(stack, Visiting(p)) > 0
    decreases stack
  {
    var n := |stack| - 1;
    if stack[n].path == p + [i] {
      assert |p + [i]| > 0;
      ChildPath(p, i, stack[n - 1].path, stack[n - 1].next - 1);
      WeighBoundsTerm(stack, n - 1, Visiting(p));
    } else {
      ParentIsVisiting(ok, stack[..n], p, i);
    }
  }

  /** When no activation is inside p, none is on a child of p. */
  lemma NoneInside(t: Tree, st: State, p: Path, i: nat)
    requires Inv(t, st) && All(st.calls, Visiting(p)) == 0
    ensures All(st.calls, On(p + [i])) == 0
  {
    if All(st.calls, On(p + [i])) > 0 {
      var k := TotalPositive(st.calls, StackWeight(On(p + [i])));
      assert GoodCall(t, st.calls[k]);
      ParentIsVisiting(Good(t), st.calls[k].stack, p, i);
      TotalBoundsTerm(st.calls, k, StackWeight(Visiting(p)));
    }
  }

  lemma ParentNode(t: Tree, p: Path)
    requires Node(t, p).Some? && p != []
    ensures var parent := p[..|p| - 1];
            IsInner(t, parent) && p[|p| - 1] < Arity(t, parent) && p == parent + [p[|p| - 1]]
  {
  }

  /** However many Close calls run at once, no node's channel is ever closed twice: the guards protect the inner
      nodes, and the tree shape protects the unguarded leaves. */
  lemma NothingClosedTwice(t: Tree, es: seq<Event>, p: Path)
    requires t != Leaf && Node(t, p).Some?
    ensures Run(t, es).closes[p] <= 1
  {
    ReachableInv(t, es);
    var st := Run(t, es);
    if IsInner(t, p) {
      assert InnerInv(st, p);
    } else {
      ParentNode(t, p);
      var parent, i := p[..|p| - 1], p[|p| - 1];
      assert ChildInv(st, parent, i) && InnerInv(st, parent) && LeafInv(st, p);
      PassedAreVisiting(st, parent, i);
    }
  }

  lemma PassedAreVisiting(st: State, p: Path, i: nat)
    ensures All(st.calls, Passed(p, i)) <= All(st.calls, Visiting(p))
  {
    TotalMonotone(st.calls, p, i);
  }

  lemma {:induction false} WeighMonotone(stack: seq<Frame>, p: Path, i: nat)
    ensures Weigh(stack, Passed(p, i)) <= Weigh(stack, Visiting(p))
    decreases stack
  {
    if stack != [] {
      WeighMonotone(stack[..|stack| - 1], p, i);
    }
  }

  lemma {:induction false} TotalMonotone(calls: seq<Call>, p: Path, i: nat)
    ensures All(calls, Passed(p, i)) <= All(calls, Visiting(p))
    decreases calls
  {
    if calls != [] {
      TotalMonotone(calls[..|calls| - 1], p, i);
      WeighMonotone(calls[|calls| - 1].stack, p, i);
    }
  }

  lemma {:induction false} AtMostOneWinner(calls: seq<Call>, j: nat, k: nat)
    requires j < k < |calls| && calls[j].outcome == Won && calls[k].outcome == Won
    ensures Total(calls, Winner) >= 2
    decreases calls
  {
    var n := |calls| - 1;
    if k == n {
      TotalBoundsTerm(calls[..n], j, Winner);
    } else {
      AtMostOneWinner(calls[..n], j, k);
    }
  }

  /** At most one call on the root succeeds; the others return net.ErrClosed. */
  lemma OneWinner(t: Tree, es: seq<Event>, j: nat, k: nat)
    requires t != Leaf && j < k < |Run(t, es).calls|
    ensures !(Run(t, es).calls[j].outcome == Won && Run(t, es).calls[k].outcome == Won)
  {
    ReachableInv(t, es);
    assert InnerInv(Run(t, es), []);
    if Run(t, es).calls[j].outcome == Won && Run(t, es).calls[k].outcome == Won {
      AtMostOneWinner(Run(t, es).calls, j, k);
    }
  }

  /** Below a node whose successful Close has returned, every node has been closed. */
  lemma {:induction false} WonBelow(t: Tree, st: State, p: Path)
    requires IsInner(t, []) && Inv(t, st) && st.won[[]] > 0 && Node(t, p).Some?
    ensures st.closes[p] == 1 && (IsInner(t, p) ==> st.won[p] == 1)
    decreases |p|
  {
    if p == [] {
      assert InnerInv(st, []);
    } else {
      ParentNode(t, p);
      var parent, i := p[..|p| - 1], p[|p| - 1];
      WonBelow(t, st, parent);
      assert InnerInv(st, parent) && ChildInv(st, parent, i);
      PassedAreVisiting(st, parent, i);
      NoneInside(t, st, parent, i);
      assert st.returned[p] == 1;
      if IsInner(t, p) {
        assert InnerInv(st, p);
        VisitingAreOn(st.calls, p);
      } else {
        assert LeafInv(st, p);
      }
    }
  }

  lemma {:induction false} WeighVisitingOn(stack: seq<Frame>, p: Path)
    ensures Weigh(stack, Visiting(p)) <= Weigh(stack, On(p))
    decreases stack
  {
    if stack != [] {
      WeighVisitingOn(stack[..|stack| - 1], p);
    }
  }

  lemma {:induction false} VisitingAreOn(calls: seq<Call>, p: Path)
    ensures All(calls, Visiting(p)) <= All(calls, On(p))
    decreases calls
  {
    if calls != [] {
      VisitingAreOn(calls[..|calls| - 1], p);
      WeighVisitingOn(calls[|calls| - 1].stack, p);
    }
  }

  /** When a Close call on the root has succeeded, the channel of every node of the tree has been closed exactly
      once, even if other Close calls are still running. */
  lemma WinnerClosedEverythingOnce(t: Tree, es: seq<Event>, k: nat, p: Path)
    requires t != Leaf && Node(t, p).Some?
    requires k < |Run(t, es).calls| && Run(t, es).calls[k].outcome == Won
    ensures Run(t, es).closes[p] == 1
  {
    ReachableInv(t, es);
    TotalBoundsTerm(Run(t, es).calls, k, Winner);
    WonBelow(t, Run(t, es), p);
  }

  /** When every call has returned, and there was one, exactly one of them succeeded. */
  lemma SomeoneWins(t: Tree, es: seq<Event>) returns (k: nat)
    requires t != Leaf && Run(t, es).calls != []
    requires forall j :: 0 <= j < |Run(t, es).calls| ==> Run(t, es).calls[j].outcome != Running
    ensures k < |Run(t, es).calls| && Run(t, es).calls[k].outcome == Won
    ensures forall j :: 0 <= j < |Run(t, es).calls| && j != k ==> Run(t, es).calls[j].outcome == Refused
  {
    ReachableInv(t, es);
    var st := Run(t, es);
    forall j | 0 <= j < |st.calls|
      ensures st.calls[j].stack == []
    {
      assert GoodCall(t, st.calls[j]);
    }
    EmptyStacksWeighNothing(st.calls, On([]));
    EmptyStacksWeighNothing(st.calls, Visiting([]));
    assert InnerInv(st, []);
    k := TotalPositive(st.calls, Winner);
    forall j | 0 <= j < |st.calls| && j != k
      ensures st.calls[j].outcome == Refused
    {
      if j < k {
        OneWinner(t, es, j, k);
      } else {
        OneWinner(t, es, k, j);
      }
    }
  }

  lemma {:induction false} EmptyStacksWeighNothing(calls: seq<Call>, w: Frame -> nat)
    requires forall j :: 0 <= j < |calls| ==> calls[j].stack == []
    ensures All(calls, w) == 0
    decreases calls
  {
    if calls != [] {
      EmptyStacksWeighNothing(calls[..|calls| - 1], w);
    }
  }

  // ---------------------------------------------------------------- no deadlock

  lemma {:induction false} PathLengths(ok: Frame -> bool, stack: seq<Frame>, j: nat)
    requires GoodStack(ok, stack) && j < |stack|
    ensures |stack[j].path| == j && ok(stack[j])
    decreases stack
  {
    var n := |stack| - 1;
    if j < n {
      PathLengths(ok, stack[..n], j);
    } else if n > 0 {
      PathLengths(ok, stack[..n], n - 1);
    }
  }

  function MaxDepth(calls: seq<Call>): (n: nat)
    ensures forall j :: 0 <= j < |calls| ==> |calls[j].stack| <= n
    ensures n > 0 ==> exists j :: 0 <= j < |calls| && |calls[j].stack| == n
  {
    if calls == [] then 0
    else
      var m, last := MaxDepth(calls[..|calls| - 1]), |calls[|calls| - 1].stack|;
      if m < last then last else m
  }

  lemma MutexHolderMoves(t: Tree, st: State, k: nat)
    requires k < |st.calls| && st.calls[k].stack != [] && !Top(st.calls[k]).Enter?
    ensures Enabled(t, st, k)
  {
  }

  /** The call that holds the mutex of p can step if no stack goes deeper than p. */
  lemma HolderCanStep(t: Tree, st: State, p: Path) returns (k: nat)
    requires Inv(t, st) && IsInner(t, p) && p in st.held
    requires forall j :: 0 <= j < |st.calls| ==> |st.calls[j].stack| <= |p| + 1
    ensures Enabled(t, st, k)
  {
    assert InnerInv(st, p);
    k := TotalPositive(st.calls, StackWeight(Holding(p)));
    assert GoodCall(t, st.calls[k]);
    var i := WeighPositive(st.calls[k].stack, Holding(p));
    PathLengths(Good(t), st.calls[k].stack, i);
    assert !Top(st.calls[k]).Enter?;
    MutexHolderMoves(t, st, k);
  }

  /** A call that cannot step waits for the mutex of an inner node. */
  lemma BlockedOnMutex(t: Tree, st: State, k: nat)
    requires k < |st.calls| && GoodCall(t, st.calls[k]) && st.calls[k].stack != [] && !Enabled(t, st, k)
    ensures var p := Top(st.calls[k]).path;
            IsInner(t, p) && p in st.held && |p| == |st.calls[k].stack| - 1
  {
    PathLengths(Good(t), st.calls[k].stack, |st.calls[k].stack| - 1);
  }

  /** Nested mutexes are always taken from the root downwards, so while any call is running, some call can step. */
  lemma NeverDeadlocked(t: Tree, es: seq<Event>, j: nat) returns (k: nat)
    requires t != Leaf && j < |Run(t, es).calls| && Run(t, es).calls[j].outcome == Running
    ensures Enabled(t, Run(t, es), k)
  {
    ReachableInv(t, es);
    k := SomeCallCanStep(t, Run(t, es), j);
  }

  lemma SomeCallCanStep(t: Tree, st: State, j: nat) returns (k: nat)
    requires Inv(t, st) && j < |st.calls| && st.calls[j].outcome == Running
    ensures Enabled(t, st, k)
  {
    assert GoodCall(t, st.calls[j]);
    var depth := MaxDepth(st.calls);
    k :| 0 <= k < |st.calls| && |st.calls[k].stack| == depth;
    assert GoodCall(t, st.calls[k]);
    if !Enabled(t, st, k) {
      BlockedOnMutex(t, st, k);
      k := HolderCanStep(t, st, Top(st.calls[k]).path);
    }
  }

  // ---------------------------------------------------------------- every schedule ends

  /** The steps of one Close of t that finds everything open: lock, check, unlock, and for each child its own Close
      and a step to go on to it. */
  function Work(t: Tree): nat
    decreases t
  {
    match t
    case Leaf => 1
    case Proxy(inner) => 4 + Work(inner)
    case Multi(inners) => 3 + WorkFrom(inners, 0)
  }

  function WorkFrom(ts: seq<Tree>, next: nat): nat
    decreases ts, |ts| - next
  {
    if next >= |ts| then 0 else 1 + Work(ts[next]) + WorkFrom(ts, next + 1)
  }

  lemma WorkOfInner(t: Tree)
    requires t != Leaf
    ensures Work(t) == 3 + WorkFrom(Children(t), 0)
  {
    if t.Proxy? {
      assert WorkFrom([t.inner], 1) == 0;
    }
  }

  /** The steps an activation can still take, those of the activations it will begin included. */
  function FrameWork(t: Tree): Frame -> nat {
    (f: Frame) => RemainingWork(Node(t, f.path), f)
  }

  function RemainingWork(node: Option<Tree>, f: Frame): nat {
    var children := if node.Some? then Children(node.value) else [];
    match f
    case Enter(_) => if node.Some? then Work(node.value) else 3
    case Check(_) => 2 + WorkFrom(children, 0)
    case Visit(_, next) => 1 + WorkFrom(children, next)
  }

  /** A bound on the steps that all Close calls together can still take. */
  function Rank(t: Tree, st: State): nat {
    All(st.calls, FrameWork(t))
  }

  lemma EnterDoesWork(t: Tree, st: State, p: Path)
    ensures FramesWeight(NewFrames(t, st, Enter(p)), FrameWork(t)) < FrameWork(t)(Enter(p))
  {
    if IsInner(t, p) {
      WorkOfInner(Node(t, p).value);
    }
  }

  lemma VisitDoesWork(t: Tree, st: State, p: Path, next: nat)
    ensures FramesWeight(NewFrames(t, st, Visit(p, next)), FrameWork(t)) < FrameWork(t)(Visit(p, next))
  {
    if next < Arity(t, p) {
      NodeChild(t, p, next);
      var child := Children(Node(t, p).value)[next];
      assert FrameWork(t)(Enter(p + [next])) == Work(child);
    }
  }

  lemma StepDoesWork(t: Tree, st: State, f: Frame)
    ensures |NewFrames(t, st, f)| <= 2
    ensures FramesWeight(NewFrames(t, st, f), FrameWork(t)) < FrameWork(t)(f)
  {
    match f {
      case Enter(p) => EnterDoesWork(t, st, p);
      case Check(_) =>
      case Visit(p, next) => VisitDoesWork(t, st, p, next);
    }
  }

  /** Every step of a Close call, whichever call moves, lowers the rank. */
  lemma StepLowersRank(t: Tree, st: State, k: nat)
    requires Enabled(t, st, k)
    ensures Rank(t, AdvanceCall(t, st, k)) < Rank(t, st)
  {
    WeightAfter(t, st, k, FrameWork(t));
    StepDoesWork(t, st, Top(st.calls[k]));
  }

  lemma BeginAddsWork(t: Tree, st: State)
    ensures Rank(t, Step(t, st, Begin)) == Rank(t, st) + Work(t)
  {
    var c := Call([Enter([])], Running);
    assert (st.calls + [c])[..|st.calls|] == st.calls;
    WeighSmall(Enter([]), Enter([]), FrameWork(t));
  }

  predicate IsTaken(t: Tree, st: State, e: Event) {
    e.Advance? && Enabled(t, st, e.call)
  }

  function StepsTaken(t: Tree, st: State, es: seq<Event>): nat
    decreases es
  {
    if es == [] then 0 else (if IsTaken(t, st, es[0]) then 1 else 0) + StepsTaken(t, Step(t, st, es[0]), es[1..])
  }

  function Begins(es: seq<Event>): nat {
    if es == [] then 0 else (if es[0].Begin? then 1 else 0) + Begins(es[1..])
  }

  lemma EventPaysWork(t: Tree, st: State, e: Event)
    ensures Rank(t, Step(t, st, e)) + (if IsTaken(t, st, e) then 1 else 0)
            <= Rank(t, st) + if e.Begin? then Work(t) else 0
  {
    if e.Begin? {
      BeginAddsWork(t, st);
    } else if Enabled(t, st, e.call) {
      StepLowersRank(t, st, e.call);
    }
  }

  lemma Distribute(a: nat, b: nat, w: nat)
    ensures (a + b) * w == a * w + b * w
  {
  }

  lemma {:induction false} StepsAreBounded(t: Tree, st: State, es: seq<Event>)
    ensures StepsTaken(t, st, es) + Rank(t, Exec(t, st, es)) <= Rank(t, st) + Begins(es) * Work(t)
    decreases es
  {
    if es != [] {
      EventPaysWork(t, st, es[0]);
      StepsAreBounded(t, Step(t, st, es[0]), es[1..]);
      Distribute(if es[0].Begin? then 1 else 0, Begins(es[1..]), Work(t));
    }
  }

  /** Every schedule of Close calls on a tree ends: each call accounts for at most Work(t) steps. And it ends well:
      when no call can step any more, every call has returned. */
  lemma EveryScheduleEnds(t: Tree, es: seq<Event>)
    requires t != Leaf
    ensures StepsTaken(t, INITIAL, es) <= Begins(es) * Work(t)
    ensures (forall k :: !Enabled(t, Run(t, es), k)) ==>
              forall j :: 0 <= j < |Run(t, es).calls| ==> Run(t, es).calls[j].outcome != Running
  {
    StepsAreBounded(t, INITIAL, es);
    if j :| 0 <= j < |Run(t, es).calls| && Run(t, es).calls[j].outcome == Running {
      var k := NeverDeadlocked(t, es, j);
    }
  }

  // ---------------------------------------------------------------- the order of closing

  /** An inner node's channel is closed before any of its children is. */
  lemma ParentFirst(t: Tree, es: seq<Event>, p: Path, i: nat)
    requires t != Leaf && IsInner(t, p) && i < Arity(t, p)
    ensures Run(t, es).closes[p + [i]] > 0 ==> Run(t, es).closes[p] == 1
  {
    ReachableInv(t, es);
    var st := Run(t, es);
    assert InnerInv(st, p) && ChildInv(st, p, i);
    PassedAreVisiting(st, p, i);
    WinnersReturn(t, INITIAL, es, p + [i]);
    ChildClosedByActivation(t, st, p, i);
  }

  lemma {:induction false} WinnersReturn(t: Tree, st: State, es: seq<Event>, p: Path)
    requires st.won[p] <= st.returned[p]
    ensures Exec(t, st, es).won[p] <= Exec(t, st, es).returned[p]
    decreases es
  {
    if es != [] {
      WinnersReturn(t, Step(t, st, es[0]), es[1..], p);
    }
  }

  /** A child's channel is closed by an activation that is on it or has returned. */
  lemma ChildClosedByActivation(t: Tree, st: State, p: Path, i: nat)
    requires Inv(t, st) && IsInner(t, p) && i < Arity(t, p)
    requires st.won[p + [i]] <= st.returned[p + [i]]
    ensures st.closes[p + [i]] <= All(st.calls, On(p + [i])) + st.returned[p + [i]]
  {
    var c := p + [i];
    NodeChild(t, p, i);
    if IsInner(t, c) {
      assert InnerInv(st, c);
      VisitingAreOn(st.calls, c);
    } else {
      assert LeafInv(st, c);
    }
  }
}
