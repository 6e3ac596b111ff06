/**
 Counting over all shared states and threads. Every shared state made by `then` is
 satisfied by exactly one of: the stored or running functor, what that led to, the
 outcome itself, or a loss; and every shared state has one consumer at a time, and one
 more for each `then` on it that threw.
 */
module FutureLedger {
  import opened Options
  import opened SharedStates
  import opened FutureSystems
  import opened FutureMeaning

  function Sum(ws: seq<nat>): nat {
    if ws == [] then 0 else ws[0] + Sum(ws[1..])
  }

  lemma {:induction false} SumUpdate(ws: seq<nat>, i: nat, w: nat)
    requires i < |ws|
    ensures Sum(ws[i := w]) + ws[i] == Sum(ws) + w
  {
    if i == 0 {
      assert ws[0 := w][1..] == ws[1..];
    } else {
      assert ws[i := w][1..] == ws[1..][i - 1 := w];
      SumUpdate(ws[1..], i - 1, w);
    }
  }

  lemma {:induction false} SumAppend(ws: seq<nat>, w: nat)
    ensures Sum(ws + [w]) == Sum(ws) + w
  {
    if ws == [] {
      assert ws + [w] == [w];
    } else {
      assert (ws + [w])[1..] == ws[1..] + [w];
      SumAppend(ws[1..], w);
    }
  }

  lemma {:induction false} SumAtLeast(ws: seq<nat>, i: nat)
    requires i < |ws|
    ensures ws[i] <= Sum(ws)
  {
    if i > 0 {
      SumAtLeast(ws[1..], i - 1);
    }
  }

  lemma {:induction false} SumHasTerm(ws: seq<nat>) returns (i: nat)
    requires Sum(ws) > 0
    ensures i < |ws| && ws[i] > 0
  {
    if ws[0] > 0 {
      i := 0;
    } else {
      i := SumHasTerm(ws[1..]);
      i := i + 1;
    }
  }

  /** The state holds a continuation that has not been executed: because it is not ready, or was abandoned. */
  predicate Waits(n: Node) {
    n.cell.continuation.Some? && (n.cell.state.NotReady? || n.abandoned)
  }

  datatype NodeMeasure = WaitingFunctor(o: Id) | WaitingForward(o: Id) | NodeRank

  function NodeWeight(m: NodeMeasure, n: Node): nat {
    if n.cell.continuation.None? then 0
    else
      var Continuation(work, output) := n.cell.continuation.value;
      match m
      case WaitingFunctor(o) => if Waits(n) && output == o && !work.Forward? then 1 else 0
      case WaitingForward(o) => if Waits(n) && output == o && work.Forward? then 1 else 0
      case NodeRank => if Waits(n) then WorkRank(work) else 0
  }

  datatype ThreadMeasure = RunningFunctor(o: Id) | Resolving(o: Id) | Executing(i: Id) | Claiming(i: Id) | ThreadRank

  function ThreadWeight(m: ThreadMeasure, thread: Thread): nat {
    match m
    case RunningFunctor(o) =>
      (match thread.task
       case Execute(_, c) => if c.output == o && !c.work.Forward? then 1 else 0
       case _ => 0)
    case Resolving(o) =>
      (match thread.task
       case Execute(_, c) => if c.output == o && c.work.Forward? then 1 else 0
       case Deliver(output, _) => if output == o then 1 else 0
       case Attach(_, c) => if c.output == o then 1 else 0
       case Idle => 0)
    case Executing(i) => if thread.task.Execute? && thread.task.input == i then 1 else 0
    case Claiming(i) =>
      (if thread.task.Attach? && thread.task.inner == i then 1 else 0)
      + (if thread.frame.ThenCall? && thread.frame.result == i then 1 else 0)
    case ThreadRank =>
      match thread.task
      case Execute(_, c) => WorkRank(c.work)
      case Attach(_, _) => 3
      case Deliver(_, _) => 1
      case Idle => 0
  }

  /** How many steps a continuation can cause at most, down to satisfying its output. */
  function WorkRank(work: Work): nat {
    if work.Unwrap? then 4 else 2
  }

  function NodeTotal(m: NodeMeasure, nodes: seq<Node>): nat {
    Sum(seq(|nodes|, i requires 0 <= i < |nodes| => NodeWeight(m, nodes[i])))
  }

  function ThreadTotal(m: ThreadMeasure, threads: seq<Thread>): nat {
    Sum(seq(|threads|, t requires 0 <= t < |threads| => ThreadWeight(m, threads[t])))
  }

  lemma {:induction false} NodeTotalUpdate(m: NodeMeasure, nodes: seq<Node>, i: nat, n: Node)
    requires i < |nodes|
    ensures NodeTotal(m, nodes[i := n]) + NodeWeight(m, nodes[i]) == NodeTotal(m, nodes) + NodeWeight(m, n)
  {
    var ws := seq(|nodes|, i requires 0 <= i < |nodes| => NodeWeight(m, nodes[i]));
    SumUpdate(ws, i, NodeWeight(m, n));
    var nodes' := nodes[i := n];
    assert seq(|nodes'|, i requires 0 <= i < |nodes'| => NodeWeight(m, nodes'[i])) == ws[i := NodeWeight(m, n)];
  }

  lemma {:induction false} NodeTotalAppend(m: NodeMeasure, nodes: seq<Node>, n: Node)
    ensures NodeTotal(m, nodes + [n]) == NodeTotal(m, nodes) + NodeWeight(m, n)
  {
    var ws := seq(|nodes|, i requires 0 <= i < |nodes| => NodeWeight(m, nodes[i]));
    SumAppend(ws, NodeWeight(m, n));
    var nodes' := nodes + [n];
    assert seq(|nodes'|, i requires 0 <= i < |nodes'| => NodeWeight(m, nodes'[i])) == ws + [NodeWeight(m, n)];
  }

  lemma {:induction false} NodeTotalAtLeast(m: NodeMeasure, nodes: seq<Node>, i: nat)
    requires i < |nodes|
    ensures NodeWeight(m, nodes[i]) <= NodeTotal(m, nodes)
  {
    SumAtLeast(seq(|nodes|, i requires 0 <= i < |nodes| => NodeWeight(m, nodes[i])), i);
  }

  lemma {:induction false} NodeTotalHasTerm(m: NodeMeasure, nodes: seq<Node>) returns (i: nat)
    requires NodeTotal(m, nodes) > 0
    ensures i < |nodes| && NodeWeight(m, nodes[i]) > 0
  {
    i := SumHasTerm(seq(|nodes|, i requires 0 <= i < |nodes| => NodeWeight(m, nodes[i])));
  }

  lemma {:induction false} ThreadTotalUpdate(m: ThreadMeasure, threads: seq<Thread>, t: nat, thread: Thread)
    requires t < |threads|
    ensures ThreadTotal(m, threads[t := thread]) + ThreadWeight(m, threads[t])
         == ThreadTotal(m, threads) + ThreadWeight(m, thread)
  {
    var ws := seq(|threads|, t requires 0 <= t < |threads| => ThreadWeight(m, threads[t]));
    SumUpdate(ws, t, ThreadWeight(m, thread));
    var threads' := threads[t := thread];
    assert ws[t := ThreadWeight(m, thread)]
        == seq(|threads'|, t requires 0 <= t < |threads'| => ThreadWeight(m, threads'[t]));
  }

  lemma {:induction false} ThreadTotalAppend(m: ThreadMeasure, threads: seq<Thread>, thread: Thread)
    ensures ThreadTotal(m, threads + [thread]) == ThreadTotal(m, threads) + ThreadWeight(m, thread)
  {
    var ws := seq(|threads|, t requires 0 <= t < |threads| => ThreadWeight(m, threads[t]));
    SumAppend(ws, ThreadWeight(m, thread));
    var threads' := threads + [thread];
    assert ws + [ThreadWeight(m, thread)]
        == seq(|threads'|, t requires 0 <= t < |threads'| => ThreadWeight(m, threads'[t]));
  }

  lemma {:induction false} ThreadTotalAtLeast(m: ThreadMeasure, threads: seq<Thread>, t: nat)
    requires t < |threads|
    ensures ThreadWeight(m, threads[t]) <= ThreadTotal(m, threads)
  {
    SumAtLeast(seq(|threads|, t requires 0 <= t < |threads| => ThreadWeight(m, threads[t])), t);
  }

  lemma {:induction false} ThreadTotalHasTerm(m: ThreadMeasure, threads: seq<Thread>) returns (t: nat)
    requires ThreadTotal(m, threads) > 0
    ensures t < |threads| && ThreadWeight(m, threads[t]) > 0
  {
    t := SumHasTerm(seq(|threads|, t requires 0 <= t < |threads| => ThreadWeight(m, threads[t])));
  }

  // ----- one satisfier for every output

  function Outputs(s: System, o: Id): nat {
    if o < |s.nodes| && s.nodes[o].origin.FromThen? then 1 else 0
  }

  function Settled(s: System, o: Id): nat {
    (if Outputs(s, o) == 1 && s.IsReady(o) then 1 else 0) + (if o in s.lost then 1 else 0)
  }

  /** Stored or running functors that are to satisfy `o`. */
  function Functors(s: System, o: Id): nat {
    NodeTotal(WaitingFunctor(o), s.nodes) + ThreadTotal(RunningFunctor(o), s.threads)
  }

  /** What the functor for `o` led to, on its way to `o`. */
  function Followers(s: System, o: Id): nat {
    NodeTotal(WaitingForward(o), s.nodes) + ThreadTotal(Resolving(o), s.threads)
  }

  ghost predicate Balanced(s: System, o: Id) {
    && Functors(s, o) + s.runs[o] == Outputs(s, o)
    && Functors(s, o) + Followers(s, o) + Settled(s, o) == Outputs(s, o)
  }

  // ----- one consumer for every shared state

  function WaitsAt(s: System, i: Id): nat {
    if i < |s.nodes| && Waits(s.nodes[i]) then 1 else 0
  }

  function Allowance(s: System, i: Id): nat {
    if i < |s.nodes| && (s.nodes[i].origin.FromThen? || s.nodes[i].cell.retrieved) then 1 else 0
  }

  /** Futures of `i` that are free for use, or that a thread is about to attach to or to return. */
  function Usable(s: System, i: Id): nat {
    s.handles[i] + ThreadTotal(Claiming(i), s.threads)
  }

  /** Completed calls of `get()`, and continuations that are stored or about to be executed. */
  function Used(s: System, i: Id): nat {
    s.gets[i] + WaitsAt(s, i) + ThreadTotal(Executing(i), s.threads)
  }

  /**
   No future appears or disappears: what is usable, used, dropped or wasted is the one that
   a state has, and the ones that a `then` on it left valid when it threw.
   */
  ghost predicate Linear(s: System, i: Id) {
    Usable(s, i) + Used(s, i) + s.dropped[i] + s.wasted[i] == Allowance(s, i) + s.unwound[i]
  }

  /** A stored functor that calls `get()` is waiting, about to be executed, or has called it. */
  ghost predicate Spent(s: System, i: Id) {
    i < |s.nodes| && s.nodes[i].cell.continuation.Some? && !Kept(s, i) ==> Used(s, i) >= 1
  }

  ghost predicate Invariant(s: System) {
    && MakesSense(s)
    && (forall o: Id :: Balanced(s, o))
    && (forall i: Id :: Linear(s, i) && Spent(s, i))
  }

  // ----- steps of promises and futures

  lemma {:induction false} UpdateNode(nodes: seq<Node>, i: nat, n: Node, o: Id)
    requires i < |nodes|
    ensures NodeTotal(WaitingFunctor(o), nodes[i := n]) + NodeWeight(WaitingFunctor(o), nodes[i])
         == NodeTotal(WaitingFunctor(o), nodes) + NodeWeight(WaitingFunctor(o), n)
    ensures NodeTotal(WaitingForward(o), nodes[i := n]) + NodeWeight(WaitingForward(o), nodes[i])
         == NodeTotal(WaitingForward(o), nodes) + NodeWeight(WaitingForward(o), n)
  {
    NodeTotalUpdate(WaitingFunctor(o), nodes, i, n);
    NodeTotalUpdate(WaitingForward(o), nodes, i, n);
  }

  lemma {:induction false} AppendNode(nodes: seq<Node>, n: Node, o: Id)
    requires n.cell.continuation.None?
    ensures NodeTotal(WaitingFunctor(o), nodes + [n]) == NodeTotal(WaitingFunctor(o), nodes)
    ensures NodeTotal(WaitingForward(o), nodes + [n]) == NodeTotal(WaitingForward(o), nodes)
  {
    NodeTotalAppend(WaitingFunctor(o), nodes, n);
    NodeTotalAppend(WaitingForward(o), nodes, n);
  }

  lemma {:induction false} UpdateThread(threads: seq<Thread>, t: nat, thread: Thread, o: Id)
    requires t < |threads|
    ensures ThreadTotal(RunningFunctor(o), threads[t := thread]) + ThreadWeight(RunningFunctor(o), threads[t])
         == ThreadTotal(RunningFunctor(o), threads) + ThreadWeight(RunningFunctor(o), thread)
    ensures ThreadTotal(Resolving(o), threads[t := thread]) + ThreadWeight(Resolving(o), threads[t])
         == ThreadTotal(Resolving(o), threads) + ThreadWeight(Resolving(o), thread)
  {
    ThreadTotalUpdate(RunningFunctor(o), threads, t, thread);
    ThreadTotalUpdate(Resolving(o), threads, t, thread);
  }

  lemma {:induction false} AppendThread(threads: seq<Thread>, thread: Thread, o: Id)
    ensures ThreadTotal(RunningFunctor(o), threads + [thread])
         == ThreadTotal(RunningFunctor(o), threads) + ThreadWeight(RunningFunctor(o), thread)
    ensures ThreadTotal(Resolving(o), threads + [thread])
         == ThreadTotal(Resolving(o), threads) + ThreadWeight(Resolving(o), thread)
  {
    ThreadTotalAppend(RunningFunctor(o), threads, thread);
    ThreadTotalAppend(Resolving(o), threads, thread);
  }

  lemma {:induction false} SatisfyIsBalanced(s: System, i: Id, outcome: Outcome, o: Id)
    requires MakesSense(s) && Enabled(s, Satisfy(i, outcome)) && Balanced(s, o)
    ensures Balanced(Apply(s, Satisfy(i, outcome)), o)
  {
    hide NodeTotal, ThreadTotal, ThreadMakesSense, ExplainsLoss, UnwoundMakesSense, ThrownMakesSense;
    var s' := Apply(s, Satisfy(i, outcome));
    NodeIsSensible(s, i);
    UpdateNode(s.nodes, i, s'.nodes[i], o);
    if |s'.threads| > |s.threads| {
      AppendThread(s.threads, s'.threads[|s.threads|], o);
    }
  }

  lemma {:induction false} PromiseStepIsBalanced(s: System, a: Action, o: Id)
    requires MakesSense(s) && Enabled(s, a) && Balanced(s, o)
    requires !a.Then? && !a.Resume?
    ensures Balanced(Apply(s, a), o)
  {
    hide NodeTotal, ThreadTotal, ThreadMakesSense, Explains, Belongs, ExplainsLoss, UnwoundMakesSense,
      ThrownMakesSense;
    var s' := Apply(s, a);
    match a
    case NewPromise =>
      AppendNode(s.nodes, Node(NEW_CELL, FromPromise, false), o);
    case GetFuture(i) =>
      UpdateNode(s.nodes, i, s'.nodes[i], o);
    case Satisfy(i, outcome) =>
      SatisfyIsBalanced(s, i, outcome, o);
    case DestroyPromise(i) =>
      UpdateNode(s.nodes, i, s'.nodes[i], o);
    case Get(_) =>
    case Drop(_) =>
  }

  lemma {:induction false} ThenIsBalanced(s: System, i: Id, work: Work, o: Id)
    requires MakesSense(s) && Enabled(s, Then(i, work)) && Balanced(s, o)
    ensures Balanced(Attached(s, i, work), o)
  {
    hide NodeTotal, ThreadTotal, MakesSense;
    var s' := Attached(s, i, work);
    var n := Node(NEW_CELL, FromThen(i, work), false);
    AppendNode(s.nodes, n, o);
    UpdateNode(s.nodes + [n], i, s'.nodes[i], o);
    if |s'.threads| > |s.threads| {
      AppendThread(s.threads, s'.threads[|s.threads|], o);
    }
  }

  // ----- steps of threads

  /** A functor that is executed leads on to its output, or to a loss. */
  lemma {:induction false} ExecuteLeadsOn(s: System, t: nat, o: Id)
    requires CanResume(s, t) && s.threads[t].task.Execute?
    ensures var Execute(i, c) := s.threads[t].task;
            var threads := Resumed(s, t).threads;
            var functor := if c.output == o && !c.work.Forward? then 1 else 0;
            var loss := if c.output == o && ReplyOf(c.work, s.OutcomeOf(i)).Escapes? then 1 else 0;
            && ThreadTotal(RunningFunctor(o), threads) + functor == ThreadTotal(RunningFunctor(o), s.threads)
            && ThreadTotal(Resolving(o), threads) + loss == ThreadTotal(Resolving(o), s.threads) + functor
  {
    hide ThreadTotal, Resumed, ReplyOf;
    ExecuteStep(s, t);
    UpdateThread(s.threads, t, Resumed(s, t).threads[t], o);
  }

  lemma {:induction false} ExecuteIsBalanced(s: System, t: nat, o: Id)
    requires MakesSense(s) && CanResume(s, t) && s.threads[t].task.Execute? && Balanced(s, o)
    ensures Balanced(Resumed(s, t), o)
  {
    hide NodeTotal, ThreadTotal, Resumed, ReplyOf, MakesSense, FrameMakesSense;
    ExecuteStep(s, t);
    ExecuteLeadsOn(s, t, o);
    ThreadIsSensible(s, t);
    ThreadIsCounted(s, t, o);
  }

  /** Nothing else satisfies the output of a thread that is about to: `set_value` will not throw. */
  lemma {:induction false} DeliverFindsNotReady(s: System, t: nat)
    requires MakesSense(s) && t < |s.threads| && s.threads[t].task.Deliver?
    requires Balanced(s, s.threads[t].task.output)
    ensures s.threads[t].task.output < |s.nodes|
    ensures s.nodes[s.threads[t].task.output].cell.state.NotReady?
  {
    hide NodeTotal, ThreadTotal, MakesSense;
    ThreadIsSensible(s, t);
    ThreadIsCounted(s, t, s.threads[t].task.output);
  }

  lemma {:induction false} DeliverIsBalanced(s: System, t: nat, o: Id)
    requires MakesSense(s) && CanResume(s, t) && s.threads[t].task.Deliver?
    requires Balanced(s, o) && Balanced(s, s.threads[t].task.output)
    ensures Balanced(Resumed(s, t), o)
  {
    hide NodeTotal, ThreadTotal, Resumed, MakesSense;
    var s' := Resumed(s, t);
    var output := s.threads[t].task.output;
    ThreadIsSensible(s, t);
    NodeIsSensible(s, output);
    DeliverFindsNotReady(s, t);
    DeliverStep(s, t);
    UpdateThread(s.threads, t, s'.threads[t], o);
    UpdateNode(s.nodes, output, s'.nodes[output], o);
  }

  lemma {:induction false} AttachIsBalanced(s: System, t: nat, o: Id)
    requires MakesSense(s) && CanResume(s, t) && s.threads[t].task.Attach? && Balanced(s, o)
    ensures Balanced(Resumed(s, t), o)
  {
    hide NodeTotal, ThreadTotal, Resumed, MakesSense;
    var s' := Resumed(s, t);
    var inner := s.threads[t].task.inner;
    AttachStep(s, t);
    ThreadIsSensible(s, t);
    UpdateThread(s.threads, t, s'.threads[t], o);
    UpdateNode(s.nodes, inner, s'.nodes[inner], o);
    ThreadIsCounted(s, t, o);
  }

  /** A thread is part of the totals, so nothing else is on its way to the same output. */
  lemma {:induction false} ThreadIsCounted(s: System, t: nat, o: Id)
    requires t < |s.threads|
    ensures ThreadWeight(RunningFunctor(o), s.threads[t]) <= ThreadTotal(RunningFunctor(o), s.threads)
    ensures ThreadWeight(Resolving(o), s.threads[t]) <= ThreadTotal(Resolving(o), s.threads)
  {
    ThreadTotalAtLeast(RunningFunctor(o), s.threads, t);
    ThreadTotalAtLeast(Resolving(o), s.threads, t);
  }

  // ----- one consumer at a time

  lemma {:induction false} UpdateConsumer(threads: seq<Thread>, t: nat, thread: Thread, i: Id)
    requires t < |threads|
    ensures ThreadTotal(Executing(i), threads[t := thread]) + ThreadWeight(Executing(i), threads[t])
         == ThreadTotal(Executing(i), threads) + ThreadWeight(Executing(i), thread)
    ensures ThreadTotal(Claiming(i), threads[t := thread]) + ThreadWeight(Claiming(i), threads[t])
         == ThreadTotal(Claiming(i), threads) + ThreadWeight(Claiming(i), thread)
  {
    ThreadTotalUpdate(Executing(i), threads, t, thread);
    ThreadTotalUpdate(Claiming(i), threads, t, thread);
  }

  lemma {:induction false} AppendConsumer(threads: seq<Thread>, thread: Thread, i: Id)
    ensures ThreadTotal(Executing(i), threads + [thread])
         == ThreadTotal(Executing(i), threads) + ThreadWeight(Executing(i), thread)
    ensures ThreadTotal(Claiming(i), threads + [thread])
         == ThreadTotal(Claiming(i), threads) + ThreadWeight(Claiming(i), thread)
  {
    ThreadTotalAppend(Executing(i), threads, thread);
    ThreadTotalAppend(Claiming(i), threads, thread);
  }

  lemma {:induction false} SatisfyIsLinear(s: System, k: Id, outcome: Outcome, i: Id)
    requires MakesSense(s) && Enabled(s, Satisfy(k, outcome)) && Linear(s, i) && Spent(s, i)
    ensures Linear(Apply(s, Satisfy(k, outcome)), i) && Spent(Apply(s, Satisfy(k, outcome)), i)
  {
    hide ThreadTotal, MakesSense;
    var s' := Apply(s, Satisfy(k, outcome));
    NodeIsSensible(s, k);
    if |s'.threads| > |s.threads| {
      AppendConsumer(s.threads, s'.threads[|s.threads|], i);
    }
  }

  lemma {:induction false} GetFutureIsLinear(s: System, k: Id, i: Id)
    requires MakesSense(s) && Enabled(s, GetFuture(k)) && Linear(s, i) && Spent(s, i)
    ensures Linear(Apply(s, GetFuture(k)), i) && Spent(Apply(s, GetFuture(k)), i)
  {
    hide ThreadTotal;
  }

  lemma {:induction false} DestroyIsLinear(s: System, k: Id, i: Id)
    requires MakesSense(s) && Enabled(s, DestroyPromise(k)) && Linear(s, i) && Spent(s, i)
    ensures Linear(Apply(s, DestroyPromise(k)), i) && Spent(Apply(s, DestroyPromise(k)), i)
  {
    hide ThreadTotal, MakesSense;
    NodeIsSensible(s, k);
  }

  lemma {:induction false} PromiseStepIsLinear(s: System, a: Action, i: Id)
    requires MakesSense(s) && Enabled(s, a) && Linear(s, i) && Spent(s, i)
    requires !a.Then? && !a.Resume?
    ensures Linear(Apply(s, a), i) && Spent(Apply(s, a), i)
  {
    hide ThreadTotal;
    match a
    case NewPromise =>
    case GetFuture(k) => GetFutureIsLinear(s, k, i);
    case Satisfy(k, outcome) => SatisfyIsLinear(s, k, outcome, i);
    case DestroyPromise(k) => DestroyIsLinear(s, k, i);
    case Get(k) =>
    case Drop(k) =>
  }

  lemma {:induction false} ThenIsLinear(s: System, input: Id, work: Work, i: Id)
    requires MakesSense(s) && Enabled(s, Then(input, work)) && Linear(s, i) && Spent(s, i)
    ensures Linear(Attached(s, input, work), i) && Spent(Attached(s, input, work), i)
  {
    hide ThreadTotal, MakesSense, Explains, Belongs;
    var s' := Attached(s, input, work);
    NodeIsSensible(s, input);
    if |s'.threads| > |s.threads| {
      AppendConsumer(s.threads, s'.threads[|s.threads|], i);
    }
  }

  lemma {:induction false} HandOverConsumes(s: System, input: Id, c: Continuation, i: Id)
    ensures var s1 := HandOver(s, input, c);
            s1.handles[i] + s1.gets[i] == s.handles[i] + s.gets[i] + if i == input then 1 else 0
  {
  }

  /** Whether a functor takes a future of `i` out of use by returning it. */
  function Returns(reply: Reply, i: Id): nat {
    if reply == Awaits(i) then 1 else 0
  }

  /** How futures and calls of `get()` change when a continuation is executed. */
  lemma {:induction false} ExecuteReleases(s: System, t: nat, i: Id)
    requires CanResume(s, t) && s.threads[t].task.Execute?
    ensures var Execute(input, c) := s.threads[t].task;
            var s' := Resumed(s, t);
            && s'.handles[i] + s'.gets[i] + Returns(ReplyOf(c.work, s.OutcomeOf(input)), i)
            == s.handles[i] + s.gets[i] + (if i == input then 1 else 0) + (s'.unwound[i] - s.unwound[i])
  {
    var Execute(input, c) := s.threads[t].task;
    HandOverConsumes(s, input, c, i);
    HandOverKeeps(s, input, c);
    hide HandOver;
    match ReplyOf(c.work, s.OutcomeOf(input))
    case Delivers(_) =>
    case Awaits(_) =>
    case Escapes =>
  }

  lemma {:induction false} ExecuteMoves(s: System, t: nat, i: Id)
    requires CanResume(s, t) && s.threads[t].task.Execute?
    ensures var Execute(input, c) := s.threads[t].task;
            var threads := Resumed(s, t).threads;
            && ThreadTotal(Executing(i), threads) + (if i == input then 1 else 0)
            == ThreadTotal(Executing(i), s.threads)
            && ThreadTotal(Claiming(i), threads) + Resumed(s, t).wasted[i]
            == ThreadTotal(Claiming(i), s.threads) + Returns(ReplyOf(c.work, s.OutcomeOf(input)), i) + s.wasted[i]
  {
    hide ThreadTotal, Resumed, ReplyOf;
    ExecuteStep(s, t);
    UpdateConsumer(s.threads, t, Resumed(s, t).threads[t], i);
  }

  lemma {:induction false} ExecuteIsLinear(s: System, t: nat, i: Id)
    requires MakesSense(s) && CanResume(s, t) && s.threads[t].task.Execute? && Linear(s, i) && Spent(s, i)
    ensures Linear(Resumed(s, t), i) && Spent(Resumed(s, t), i)
  {
    hide ThreadTotal, Resumed, ReplyOf, Returns, MakesSense, FrameMakesSense, Belongs;
    ExecuteStep(s, t);
    ExecuteReleases(s, t, i);
    ExecuteMoves(s, t, i);
    ThreadIsSensible(s, t);
  }

  lemma {:induction false} DeliverIsLinear(s: System, t: nat, i: Id)
    requires MakesSense(s) && CanResume(s, t) && s.threads[t].task.Deliver? && Linear(s, i) && Spent(s, i)
    requires Balanced(s, s.threads[t].task.output)
    ensures Linear(Resumed(s, t), i) && Spent(Resumed(s, t), i)
  {
    hide ThreadTotal, NodeTotal, Resumed, MakesSense, Explains, Belongs;
    var s' := Resumed(s, t);
    DeliverFindsNotReady(s, t);
    DeliverStep(s, t);
    NodeIsSensible(s, s.threads[t].task.output);
    UpdateConsumer(s.threads, t, s'.threads[t], i);
  }

  /** The futures that an attaching thread frees or wastes, in numbers. */
  lemma {:induction false} AttachFrees(s: System, t: nat, i: Id)
    requires CanResume(s, t) && s.threads[t].task.Attach?
    ensures var Thread(Attach(inner, _), frame) := s.threads[t];
            var s' := Resumed(s, t);
            var cell := s.nodes[inner].cell;
            && s'.handles[i] + s'.wasted[i]
            == s.handles[i] + s.wasted[i] + (s'.unwound[i] - s.unwound[i])
               + (if cell.continuation.Some? && i == inner then 1 else 0)
               + (if cell.continuation.Some? || cell.state.NotReady? then ResultOf(frame)[i] else 0)
  {
    hide Resumed;
    AttachStep(s, t);
  }

  /** How futures change when a thread attaches. */
  lemma {:induction false} AttachReleases(s: System, t: nat, i: Id)
    requires CanResume(s, t) && s.threads[t].task.Attach?
    ensures var Thread(Attach(inner, _), frame) := s.threads[t];
            var s' := Resumed(s, t);
            var cell := s.nodes[inner].cell;
            && s'.handles[i] + s'.wasted[i] + ThreadTotal(Claiming(i), s'.threads)
               + (if i == inner && cell.continuation.None? then 1 else 0)
            == s.handles[i] + s.wasted[i] + ThreadTotal(Claiming(i), s.threads) + (s'.unwound[i] - s.unwound[i])
            && ThreadTotal(Executing(i), s'.threads)
            == ThreadTotal(Executing(i), s.threads)
               + (if i == inner && cell.continuation.None? && cell.state.Ready? then 1 else 0)
  {
    AttachFrees(s, t, i);
    hide ThreadTotal, Resumed;
    AttachStep(s, t);
    UpdateConsumer(s.threads, t, Resumed(s, t).threads[t], i);
  }

  lemma {:induction false} AttachIsLinear(s: System, t: nat, i: Id)
    requires MakesSense(s) && CanResume(s, t) && s.threads[t].task.Attach? && Linear(s, i) && Spent(s, i)
    ensures Linear(Resumed(s, t), i) && Spent(Resumed(s, t), i)
  {
    hide ThreadTotal, Resumed, MakesSense, Explains, Belongs;
    AttachStep(s, t);
    AttachReleases(s, t, i);
    NodeIsSensible(s, s.threads[t].task.inner);
  }

  /** A state whose stored functor calls `get()` has no usable future: not now, and so never again. */
  lemma {:induction false} UsableIsKept(s: System, i: Id)
    requires MakesSense(s) && Linear(s, i) && Spent(s, i)
    requires i < |s.nodes| && s.nodes[i].cell.continuation.Some? && Usable(s, i) > 0
    ensures Kept(s, i)
  {
    assert i in s.unwound ==> UnwoundMakesSense(s, i);
  }

  /** Nobody can attach to the output of a `then` call that has not returned. */
  lemma {:induction false} DeliverFindsNoContinuation(s: System, t: nat)
    requires Invariant(s) && CanResume(s, t) && s.threads[t].task.Deliver? && s.threads[t].frame.ThenCall?
    ensures s.nodes[s.threads[t].task.output].cell.continuation.None?
  {
    hide ThreadTotal, NodeTotal;
    var o := s.threads[t].task.output;
    ThreadIsSensible(s, t);
    DeliverFindsNotReady(s, t);
    ThreadTotalAtLeast(Claiming(o), s.threads, t);
    assert o in s.unwound ==> UnwoundMakesSense(s, o);
    assert Linear(s, o);
  }

  /** The returned future has no continuation, unless a functor kept it. */
  lemma {:induction false} AttachFindsKept(s: System, t: nat)
    requires Invariant(s) && CanResume(s, t) && s.threads[t].task.Attach?
    requires s.nodes[s.threads[t].task.inner].cell.continuation.Some?
    ensures Kept(s, s.threads[t].task.inner)
  {
    hide ThreadTotal, NodeTotal;
    var inner := s.threads[t].task.inner;
    ThreadTotalAtLeast(Claiming(inner), s.threads, t);
    assert Linear(s, inner) && Spent(s, inner);
    UsableIsKept(s, inner);
  }

  // ----- every step, and so every run

  lemma {:induction false} ResumeKeepsInvariant(s: System, t: nat)
    requires Invariant(s) && CanResume(s, t)
    ensures Invariant(Resumed(s, t))
  {
    hide MakesSense, Balanced, Linear, Spent, Resumed;
    var s' := Resumed(s, t);
    match s.threads[t].task
    case Execute(_, _) =>
      ExecuteMakesSense(s, t);
      forall o: Id ensures Balanced(s', o) { ExecuteIsBalanced(s, t, o); }
      forall i: Id ensures Linear(s', i) && Spent(s', i) { ExecuteIsLinear(s, t, i); }
    case Deliver(o, _) =>
      DeliverFindsNotReady(s, t);
      if s.threads[t].frame.ThenCall? {
        DeliverFindsNoContinuation(s, t);
      }
      DeliverMakesSense(s, t);
      forall o: Id ensures Balanced(s', o) { DeliverIsBalanced(s, t, o); }
      forall i: Id ensures Linear(s', i) && Spent(s', i) { DeliverIsLinear(s, t, i); }
    case Attach(inner, _) =>
      if s.nodes[inner].cell.continuation.Some? {
        AttachFindsKept(s, t);
      }
      AttachMakesSense(s, t);
      forall o: Id ensures Balanced(s', o) { AttachIsBalanced(s, t, o); }
      forall i: Id ensures Linear(s', i) && Spent(s', i) { AttachIsLinear(s, t, i); }
  }

  lemma {:induction false} StepKeepsInvariant(s: System, a: Action)
    requires Invariant(s) && Enabled(s, a)
    ensures Invariant(Apply(s, a))
  {
    var s' := Apply(s, a);
    if a.Resume? {
      ResumeKeepsInvariant(s, a.thread);
    } else if a.Then? {
      ThenMakesSense(s, a.id, a.work);
      forall o: Id ensures Balanced(s', o) { ThenIsBalanced(s, a.id, a.work, o); }
      forall i: Id ensures Linear(s', i) && Spent(s', i) { ThenIsLinear(s, a.id, a.work, i); }
    } else {
      PromiseStepMakesSense(s, a);
      forall o: Id ensures Balanced(s', o) { PromiseStepIsBalanced(s, a, o); }
      forall i: Id ensures Linear(s', i) && Spent(s', i) { PromiseStepIsLinear(s, a, i); }
    }
  }

  /** The invariant holds in every state that any interleaving of steps can reach. */
  lemma {:induction false} RunKeepsInvariant(s: System, actions: seq<Action>)
    requires Invariant(s) && Possible(s, actions)
    ensures Invariant(After(s, actions))
    decreases |actions|
  {
    if actions != [] {
      StepKeepsInvariant(s, actions[0]);
      RunKeepsInvariant(Apply(s, actions[0]), actions[1..]);
    }
  }

  lemma {:induction false} EmptySystemIsFine()
    ensures Invariant(EMPTY_SYSTEM)
  {
    forall o: Id ensures Balanced(EMPTY_SYSTEM, o) && Linear(EMPTY_SYSTEM, o) && Spent(EMPTY_SYSTEM, o) {
    }
  }
}
