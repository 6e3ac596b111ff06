/** What users of futures can rely on, in every state that any interleaving reaches. */
module FutureTheorems {
  import opened Options
  import opened SharedStates
  import opened FutureSystems
  import opened FutureMeaning
  import opened FutureLedger

  /** Some run from the start of the program leads to this state. */
  ghost predicate Reachable(s: System) {
    exists actions :: Possible(EMPTY_SYSTEM, actions) && s == After(EMPTY_SYSTEM, actions)
  }

  /** The invariant holds in every state that any interleaving of steps can reach. */
  lemma {:induction false} ReachableIsInvariant(s: System)
    requires Reachable(s)
    ensures Invariant(s)
  {
    var actions :| Possible(EMPTY_SYSTEM, actions) && s == After(EMPTY_SYSTEM, actions);
    EmptySystemIsFine();
    RunKeepsInvariant(EMPTY_SYSTEM, actions);
  }

  lemma {:induction false} RunsConcatenate(s: System, first: seq<Action>, second: seq<Action>)
    requires Possible(s, first) && Possible(After(s, first), second)
    ensures Possible(s, first + second) && After(s, first + second) == After(After(s, first), second)
    decreases |first|
  {
    if first == [] {
      assert first + second == second;
    } else {
      assert (first + second)[1..] == first[1..] + second;
      RunsConcatenate(Apply(s, first[0]), first[1..], second);
    }
  }

  lemma {:induction false} ReachableGoesOn(s: System, actions: seq<Action>)
    requires Reachable(s) && Possible(s, actions)
    ensures Reachable(After(s, actions))
  {
    var first :| Possible(EMPTY_SYSTEM, first) && s == After(EMPTY_SYSTEM, first);
    RunsConcatenate(EMPTY_SYSTEM, first, actions);
  }

  /** No thread is inside the library. */
  ghost predicate Quiescent(s: System) {
    forall t :: 0 <= t < |s.threads| ==> s.threads[t].task.Idle?
  }

  /** The promise of `i` was destroyed while a continuation for `o` was stored there: nobody will execute it. */
  ghost predicate Stranded(s: System, i: Id, o: Id)
    requires i < |s.nodes|
  {
    var Node(cell, _, abandoned) := s.nodes[i];
    abandoned && cell.continuation.Some? && cell.continuation.value.output == o
  }

  /** What is stranded is the functor for `o`. */
  ghost predicate Stuck(s: System, i: Id, o: Id)
    requires i < |s.nodes|
  {
    Stranded(s, i, o) && !s.nodes[i].cell.continuation.value.work.Forward?
  }

  /** The input, the functor and the future that it returned are such that `o` is to be satisfied. */
  ghost predicate Fulfilled(s: System, o: Id)
    requires o < |s.nodes| && s.nodes[o].origin.FromThen?
  {
    var FromThen(input, work) := s.nodes[o].origin;
    && s.IsReady(input) && !Stuck(s, input, o)
    && match ReplyOf(work, s.OutcomeOf(input))
       case Delivers(_) => true
       case Escapes => false
       case Awaits(k) => s.IsReady(k) && !IsFutureError(s.OutcomeOf(k)) && !Kept(s, k)
  }

  // ----- every state

  /** The functor for `o` is called at most once, and only after its input is satisfied. */
  lemma {:induction false} FunctorRunsOnceWhenReady(s: System, o: Id)
    requires Reachable(s) && o < |s.nodes| && s.nodes[o].origin.FromThen?
    ensures s.runs[o] <= 1
    ensures s.runs[o] == 1 ==> s.IsReady(s.nodes[o].origin.input)
  {
    ReachableIsInvariant(s);
    assert Balanced(s, o);
    if s.runs[o] == 1 {
      if ThreadTotal(Resolving(o), s.threads) > 0 {
        var t := ThreadTotalHasTerm(Resolving(o), s.threads);
        assert ThreadMakesSense(s, s.threads[t]);
      } else if NodeTotal(WaitingForward(o), s.nodes) > 0 {
        var i := NodeTotalHasTerm(WaitingForward(o), s.nodes);
        assert NodeMakesSense(s, i);
      } else {
        assert NodeMakesSense(s, o);
      }
    }
  }

  /** Unless a `then` on it threw, at most one valid future, continuation or `get()` ever has the state. */
  lemma {:induction false} ValueIsRetrievedAtMostOnce(s: System, i: Id)
    requires Reachable(s) && i !in s.unwound
    ensures Usable(s, i) + Used(s, i) <= 1
    ensures s.gets[i] <= 1 && (s.gets[i] == 1 ==> i !in s.handles)
  {
    ReachableIsInvariant(s);
    assert Linear(s, i);
  }

  /** A second retrieval takes a `then` on the satisfied future that threw. */
  lemma {:induction false} SecondRetrievalNeedsThrow(s: System, i: Id)
    requires Reachable(s) && Usable(s, i) + Used(s, i) > 1
    ensures s.IsReady(i) && exists o :: ThrewOn(s, i, o) && ThrownMakesSense(s, o)
  {
    ReachableIsInvariant(s);
    assert Linear(s, i) && UnwoundMakesSense(s, i);
    var o :| ThrewOn(s, i, o);
    assert ThrownMakesSense(s, o);
  }

  /** The future that a stored functor gets its value from is never free for use again. */
  lemma {:induction false} StoredGetterTakesTheFuture(s: System, i: Id, actions: seq<Action>)
    requires Reachable(s) && Possible(s, actions)
    requires i < |s.nodes| && s.nodes[i].cell.continuation.Some? && !Kept(s, i)
    ensures i !in After(s, actions).handles
  {
    var e := After(s, actions);
    OutcomesAreFinal(s, actions);
    ReachableGoesOn(s, actions);
    ReachableIsInvariant(e);
    assert Linear(e, i) && Spent(e, i);
    if i in e.handles {
      UsableIsKept(e, i);
    }
  }

  /** Whatever happens later, a lost future is never satisfied. */
  lemma {:induction false} LostForEver(s: System, o: Id, actions: seq<Action>)
    requires Reachable(s) && o in s.lost && Possible(s, actions)
    ensures !After(s, actions).IsReady(o)
  {
    var e := After(s, actions);
    OutcomesAreFinal(s, actions);
    ReachableGoesOn(s, actions);
    ReachableIsInvariant(e);
    assert ExplainsLoss(e, o) && Balanced(e, o);
  }

  /** Nor is one whose continuation is stranded, and if that is the functor, it is never called. */
  lemma {:induction false} StrandedForEver(s: System, i: Id, o: Id, actions: seq<Action>)
    requires Reachable(s) && i < |s.nodes| && Stranded(s, i, o) && Possible(s, actions)
    ensures !After(s, actions).IsReady(o)
    ensures Stuck(s, i, o) ==> After(s, actions).runs[o] == 0
  {
    hide NodeTotal, ThreadTotal;
    var e := After(s, actions);
    OutcomesAreFinal(s, actions);
    ReachableGoesOn(s, actions);
    ReachableIsInvariant(e);
    assert NodeMakesSense(e, i) && Balanced(e, o);
    NodeTotalAtLeast(WaitingFunctor(o), e.nodes, i);
    NodeTotalAtLeast(WaitingForward(o), e.nodes, i);
  }

  /** A thread inside the library can go on, except while a functor has yet to obtain the future it returns. */
  lemma {:induction false} ThreadsAreNotBlocked(s: System, t: nat)
    requires Reachable(s) && t < |s.threads| && !s.threads[t].task.Idle?
    ensures CanResume(s, t) ||
            (&& s.threads[t].task.Execute?
             && var Execute(i, c) := s.threads[t].task;
                && s.IsReady(i)
                && ReplyOf(c.work, s.OutcomeOf(i)).Awaits?
                && ReplyOf(c.work, s.OutcomeOf(i)).inner !in s.handles)
  {
    ReachableIsInvariant(s);
    assert ThreadMakesSense(s, s.threads[t]);
  }

  /** Calling `then` on a valid future attaches the continuation, unless a functor has kept this future. */
  lemma {:induction false} ThenAttachesExactly(s: System, i: Id, work: Work)
    requires Reachable(s) && i in s.handles && !work.Forward?
    ensures i < |s.nodes| && Enabled(s, Then(i, work))
    ensures var s' := Apply(s, Then(i, work));
            if Kept(s, i) then s' == s
            else |s'.nodes| == |s.nodes| + 1 && s'.nodes[|s.nodes|].origin == FromThen(i, work)
  {
    ReachableIsInvariant(s);
    assert Linear(s, i) && Spent(s, i);
    if s.nodes[i].cell.continuation.Some? {
      UsableIsKept(s, i);
    }
  }

  lemma {:induction false} FutureErrorsAreExact(x: Outcome)
    ensures IsFutureError(x) <==> exists code :: x == Raised(FutureError(code))
  {
    if IsFutureError(x) {
      assert x == Raised(FutureError(x.exception.code));
    }
  }

  // ----- a `then` that throws

  /** Whether attaching to the future that a functor returned throws cannot change any more. */
  predicate Decided(s: System, reply: Reply) {
    reply.Awaits? ==>
      && reply.inner < |s.nodes|
      && (s.IsReady(reply.inner) || s.nodes[reply.inner].cell.continuation.Some?)
  }

  lemma {:induction false} DecidedStays(s: System, s': System, reply: Reply)
    requires Extends(s, s')
    ensures Decided(s, reply) ==> Decided(s', reply) && (ReplyThrows(s', reply) <==> ReplyThrows(s, reply))
    ensures ReplyThrows(s, reply) ==> ReplyThrows(s', reply)
  {
  }

  /** The `then` call that made `o` is over, and has thrown if it had to. */
  ghost predicate Ended(s: System, o: Id) {
    && o < |s.nodes| && s.nodes[o].origin.FromThen? && s.IsReady(s.nodes[o].origin.input)
    && var reply := ReplyOf(s.nodes[o].origin.work, s.OutcomeOf(s.nodes[o].origin.input));
       Decided(s, reply) && (ReplyThrows(s, reply) ==> o in s.thrown)
  }

  lemma {:induction false} EndedStays(s: System, s': System, o: Id)
    requires Extends(s, s') && Ended(s, o)
    ensures Ended(s', o)
  {
    hide ReplyOf, Decided, ReplyThrows;
    DecidedStays(s, s', ReplyOf(s.nodes[o].origin.work, s.OutcomeOf(s.nodes[o].origin.input)));
  }

  lemma {:induction false} ThreadOf(s: System, t: nat)
    requires Invariant(s) && t < |s.threads|
    ensures ThreadMakesSense(s, s.threads[t])
  {
  }

  lemma {:induction false} ExecuteEnds(s: System, t: nat)
    requires Invariant(s) && CanResume(s, t) && s.threads[t].frame.ThenCall? && s.threads[t].task.Execute?
    ensures var s' := Resumed(s, t);
            t < |s'.threads| && (s'.threads[t].frame == s.threads[t].frame || Ended(s', s.threads[t].frame.result))
  {
    hide Resumed, Invariant;
    ThreadOf(s, t);
    ExecuteStep(s, t);
  }

  lemma {:induction false} DeliverEnds(s: System, t: nat)
    requires Invariant(s) && CanResume(s, t) && s.threads[t].frame.ThenCall? && s.threads[t].task.Deliver?
    ensures t < |Resumed(s, t).threads| && Ended(Resumed(s, t), s.threads[t].frame.result)
  {
    hide Resumed, MakesSense, Balanced, Linear, Spent;
    ThreadOf(s, t);
    DeliverFindsNotReady(s, t);
    DeliverStep(s, t);
    ResumeExtends(s, t);
    ExplainsStays(s, Resumed(s, t), s.threads[t].task.output, s.threads[t].task.outcome);
  }

  lemma {:induction false} AttachEnds(s: System, t: nat)
    requires Invariant(s) && CanResume(s, t) && s.threads[t].frame.ThenCall? && s.threads[t].task.Attach?
    ensures var s' := Resumed(s, t);
            t < |s'.threads| && (s'.threads[t].frame == s.threads[t].frame || Ended(s', s.threads[t].frame.result))
  {
    hide Resumed, Invariant;
    ThreadOf(s, t);
    AttachStep(s, t);
  }

  /** The steps of others leave a thread alone. */
  lemma {:induction false} OthersLeaveThread(s: System, a: Action, t: nat)
    requires Enabled(s, a) && t < |s.threads| && a != Resume(t)
    ensures t < |Apply(s, a).threads| && Apply(s, a).threads[t] == s.threads[t]
  {
    if a.Resume? {
      hide Resumed;
      match s.threads[a.thread].task
      case Execute(_, _) => ExecuteStep(s, a.thread);
      case Deliver(_, _) => DeliverLeavesThread(s, a.thread, t);
      case Attach(_, _) => AttachStep(s, a.thread);
    }
  }

  lemma {:induction false} DeliverLeavesThread(s: System, u: nat, t: nat)
    requires CanResume(s, u) && s.threads[u].task.Deliver? && t < |s.threads| && t != u
    ensures t < |Resumed(s, u).threads| && Resumed(s, u).threads[t] == s.threads[t]
  {
  }

  /** A step towards the end of a `then` call, by whichever thread. */
  lemma {:induction false} StepEnds(s: System, a: Action, t: nat)
    requires Invariant(s) && Enabled(s, a) && t < |s.threads| && s.threads[t].frame.ThenCall?
    ensures var s' := Apply(s, a);
            t < |s'.threads| && (s'.threads[t].frame == s.threads[t].frame || Ended(s', s.threads[t].frame.result))
  {
    hide Resumed, Invariant, Ended;
    if a != Resume(t) {
      OthersLeaveThread(s, a, t);
    } else {
      match s.threads[t].task
      case Execute(_, _) => ExecuteEnds(s, t);
      case Deliver(_, _) => DeliverEnds(s, t);
      case Attach(_, _) => AttachEnds(s, t);
    }
  }

  lemma {:induction false} CallEnds(s: System, t: nat, actions: seq<Action>)
    requires Invariant(s) && t < |s.threads| && s.threads[t].frame.ThenCall? && Possible(s, actions)
    requires var e := After(s, actions); t < |e.threads| && e.threads[t].task.Idle?
    ensures Ended(After(s, actions), s.threads[t].frame.result)
    decreases |actions|
  {
    hide Invariant, Ended, Apply;
    ThreadOf(s, t);
    assert actions != [];
    var s' := Apply(s, actions[0]);
    StepEnds(s, actions[0], t);
    StepKeepsInvariant(s, actions[0]);
    if s'.threads[t].frame == s.threads[t].frame {
      CallEnds(s', t, actions[1..]);
    } else {
      OutcomesAreFinal(s', actions[1..]);
      EndedStays(s', After(s', actions[1..]), s.threads[t].frame.result);
    }
  }

  lemma {:induction false} ThenStarts(s: System, i: Id, work: Work)
    requires Enabled(s, Then(i, work)) && s.IsReady(i) && |Apply(s, Then(i, work)).nodes| > |s.nodes|
    ensures var s1 := Apply(s, Then(i, work));
            && |s1.threads| == |s.threads| + 1
            && s1.threads[|s.threads|] ==
               Thread(Execute(i, Continuation(work, |s.nodes|)), ThenCall(i, |s.nodes|))
            && s1.nodes == s.nodes + [Node(NEW_CELL, FromThen(i, work), false)]
  {
  }

  /**
   A `then` on a satisfied future, whatever other threads do before it is over: it has
   thrown if and only if the functor raised a `future_error`, or returned a future that a
   functor had kept, or one that holds a `future_error` without having stored the
   forwarding continuation. If this is so at the call, the call throws; and if the returned
   future is satisfied or has a continuation at the call, only then.
   */
  lemma {:induction false} ThenThrowsExactly(s: System, i: Id, work: Work, actions: seq<Action>)
    requires Reachable(s) && s.IsReady(i)
    requires Enabled(s, Then(i, work)) && |Apply(s, Then(i, work)).nodes| > |s.nodes|
    requires Possible(s, [Then(i, work)] + actions)
    requires var e := After(s, [Then(i, work)] + actions);
             |s.threads| < |e.threads| && e.threads[|s.threads|].task.Idle?
    ensures var e := After(s, [Then(i, work)] + actions);
            var reply := ReplyOf(work, s.OutcomeOf(i));
            && (|s.nodes| in e.thrown <==> ReplyThrows(e, reply))
            && (ReplyThrows(s, reply) ==> |s.nodes| in e.thrown)
            && (Decided(s, reply) ==> (|s.nodes| in e.thrown <==> ReplyThrows(s, reply)))
  {
    hide Reachable, ReplyOf, Attached, ReplyThrows, Decided, Balanced, Linear, Spent;
    var run := [Then(i, work)] + actions;
    var s1, e := Apply(s, Then(i, work)), After(s, run);
    assert run[1..] == actions;
    ReachableIsInvariant(s);
    StepKeepsInvariant(s, Then(i, work));
    ThenStarts(s, i, work);
    CallEnds(s1, |s.threads|, actions);
    OutcomesAreFinal(s, run);
    OutcomesAreFinal(s1, actions);
    DecidedStays(s, e, ReplyOf(work, s.OutcomeOf(i)));
    ReachableGoesOn(s, run);
    ReachableIsInvariant(e);
    assert |s.nodes| in e.thrown ==> ThrownMakesSense(e, |s.nodes|);
  }

  // ----- a value that is retrieved twice

  /** Every functor ever attached to `i` calls `get()`. */
  ghost predicate AllGet(s: System, i: Id) {
    forall o :: 0 <= o < |s.nodes| && s.nodes[o].origin.FromThen? && s.nodes[o].origin.input == i ==>
      CallsGet(s.nodes[o].origin.work)
  }

  /** The value of `i` has been retrieved, and there is a valid future to retrieve it with once more. */
  ghost predicate SecondChance(s: System, i: Id) {
    i in s.gets && Enabled(s, Get(i))
  }

  /** The state after the first `n` steps of a run. */
  ghost function StateAt(s: System, actions: seq<Action>, n: nat): System
    requires Possible(s, actions) && n <= |actions|
    decreases n
  {
    if n == 0 then s else StateAt(Apply(s, actions[0]), actions[1..], n - 1)
  }

  lemma {:induction false} StateAtLeadsOn(s: System, actions: seq<Action>, n: nat)
    requires Possible(s, actions) && n <= |actions|
    ensures Possible(s, actions[..n]) && After(s, actions[..n]) == StateAt(s, actions, n)
    ensures Possible(StateAt(s, actions, n), actions[n..])
    ensures After(StateAt(s, actions, n), actions[n..]) == After(s, actions)
    decreases n
  {
    if n == 0 {
      assert actions[0..] == actions;
    } else {
      StateAtLeadsOn(Apply(s, actions[0]), actions[1..], n - 1);
      assert actions[1..][..n - 1] == actions[..n][1..];
      assert actions[1..][n - 1..] == actions[n..];
    }
  }

  lemma {:induction false} ThrowIsByFrame(s: System, t: nat)
    requires CanResume(s, t)
    ensures Resumed(s, t).thrown == s.thrown || Resumed(s, t).thrown == s.thrown + ThrownBy(s.threads[t].frame)
  {
    match s.threads[t].task
    case Execute(_, _) => ExecuteStep(s, t);
    case Deliver(_, _) =>
    case Attach(_, _) => AttachStep(s, t);
  }

  /** Only the thread that makes a `then` call can end it with an exception. */
  lemma {:induction false} ThrowIsResume(s: System, a: Action, o: Id)
    requires Enabled(s, a) && o !in s.thrown && o in Apply(s, a).thrown
    ensures a.Resume? && s.threads[a.thread].frame.ThenCall? && s.threads[a.thread].frame.result == o
  {
    if a.Resume? {
      hide Resumed;
      ThrowIsByFrame(s, a.thread);
    }
  }

  /** What the functor of a throwing `then` got can be got again. */
  lemma {:induction false} ThrowGivesValueBack(s: System, t: nat)
    requires Invariant(s) && CanResume(s, t) && s.threads[t].frame.ThenCall?
    requires Resumed(s, t).thrown != s.thrown
    ensures var ThenCall(i, o) := s.threads[t].frame;
            && o < |s.nodes| && s.nodes[o].origin.FromThen? && s.nodes[o].origin.input == i
            && (CallsGet(s.nodes[o].origin.work) ==> SecondChance(Resumed(s, t), i))
  {
    hide MakesSense, Balanced, Linear, Spent;
    ThreadOf(s, t);
    ResumeExtends(s, t);
    match s.threads[t].task
    case Execute(_, _) => ExecuteStep(s, t);
    case Deliver(_, _) =>
      DeliverFindsNotReady(s, t);
      DeliverStep(s, t);
    case Attach(_, _) => AttachStep(s, t);
  }

  lemma {:induction false} ThrowStepGivesValueBack(s: System, a: Action, i: Id, o: Id, e: System)
    requires Invariant(s) && Enabled(s, a) && o !in s.thrown && o in Apply(s, a).thrown
    requires Extends(s, e) && ThrewOn(e, i, o) && CallsGet(e.nodes[o].origin.work)
    ensures SecondChance(Apply(s, a), i)
  {
    hide Invariant, SecondChance, Resumed;
    ThrowIsResume(s, a, o);
    ThrowGivesValueBack(s, a.thread);
  }

  lemma {:induction false} ThrowHasMoment(s: System, actions: seq<Action>, i: Id, o: Id) returns (n: nat)
    requires Invariant(s) && Possible(s, actions) && o !in s.thrown
    requires ThrewOn(After(s, actions), i, o) && CallsGet(After(s, actions).nodes[o].origin.work)
    ensures n <= |actions| && SecondChance(StateAt(s, actions, n), i)
    decreases |actions|
  {
    hide Invariant, SecondChance, Apply;
    var s' := Apply(s, actions[0]);
    StepKeepsInvariant(s, actions[0]);
    if o in s'.thrown {
      OutcomesAreFinal(s, actions);
      ThrowStepGivesValueBack(s, actions[0], i, o, After(s, actions));
      n := 1;
    } else {
      n := ThrowHasMoment(s', actions[1..], i, o);
      n := n + 1;
    }
  }

  lemma {:induction false} RetrievedTwiceAt(actions: seq<Action>, i: Id, n: nat)
    requires Possible(EMPTY_SYSTEM, actions) && n <= |actions|
    requires SecondChance(StateAt(EMPTY_SYSTEM, actions, n), i)
    ensures exists o :: ThrewOn(After(EMPTY_SYSTEM, actions), i, o)
  {
    var m, e := StateAt(EMPTY_SYSTEM, actions, n), After(EMPTY_SYSTEM, actions);
    StateAtLeadsOn(EMPTY_SYSTEM, actions, n);
    SecondRetrievalNeedsThrow(m, i);
    OutcomesAreFinal(m, actions[n..]);
    var o :| ThrewOn(m, i, o);
    assert ThrewOn(e, i, o);
  }

  /**
   In every run: that the value of `i` can be retrieved a second time at some moment takes a
   `then` on it that throws; and if the functors of `i` call `get()`, that is enough.
   */
  lemma {:induction false} SecondRetrievalIsExact(actions: seq<Action>, i: Id)
    requires Possible(EMPTY_SYSTEM, actions)
    ensures var twice := exists n :: 0 <= n <= |actions| && SecondChance(StateAt(EMPTY_SYSTEM, actions, n), i);
            var threw := exists o :: ThrewOn(After(EMPTY_SYSTEM, actions), i, o);
            (twice ==> threw) && (AllGet(After(EMPTY_SYSTEM, actions), i) ==> (twice <==> threw))
  {
    hide SecondChance, Possible, After;
    var e := After(EMPTY_SYSTEM, actions);
    if n :| 0 <= n <= |actions| && SecondChance(StateAt(EMPTY_SYSTEM, actions, n), i) {
      RetrievedTwiceAt(actions, i, n);
    }
    if o :| ThrewOn(e, i, o) && AllGet(e, i) {
      EmptySystemIsFine();
      var n := ThrowHasMoment(EMPTY_SYSTEM, actions, i, o);
    }
  }

  // ----- cascades end

  /** Bounds the steps that are left to do without help from outside. */
  function Rank(s: System): nat {
    NodeTotal(NodeRank, s.nodes) + ThreadTotal(ThreadRank, s.threads)
  }

  lemma {:induction false} ExecuteLowersRank(s: System, t: nat)
    requires CanResume(s, t) && s.threads[t].task.Execute?
    ensures Rank(Resumed(s, t)) < Rank(s)
  {
    hide NodeTotal, ThreadTotal, Resumed;
    var s' := Resumed(s, t);
    ExecuteStep(s, t);
    ThreadTotalUpdate(ThreadRank, s.threads, t, s'.threads[t]);
  }

  lemma {:induction false} DeliverLowersRank(s: System, t: nat)
    requires MakesSense(s) && CanResume(s, t) && s.threads[t].task.Deliver?
    ensures Rank(Resumed(s, t)) < Rank(s)
  {
    hide NodeTotal, ThreadTotal;
    var s' := Resumed(s, t);
    var o := s.threads[t].task.output;
    assert NodeMakesSense(s, o);
    ThreadTotalUpdate(ThreadRank, s.threads, t, s'.threads[t]);
    NodeTotalUpdate(NodeRank, s.nodes, o, s'.nodes[o]);
  }

  lemma {:induction false} AttachLowersRank(s: System, t: nat)
    requires MakesSense(s) && CanResume(s, t) && s.threads[t].task.Attach?
    ensures Rank(Resumed(s, t)) < Rank(s)
  {
    hide NodeTotal, ThreadTotal;
    var s' := Resumed(s, t);
    var i := s.threads[t].task.inner;
    assert ThreadMakesSense(s, s.threads[t]) && NodeMakesSense(s, i);
    ThreadTotalUpdate(ThreadRank, s.threads, t, s'.threads[t]);
    NodeTotalUpdate(NodeRank, s.nodes, i, s'.nodes[i]);
  }

  lemma {:induction false} ResumeLowersRank(s: System, t: nat)
    requires Invariant(s) && CanResume(s, t)
    ensures Rank(Resumed(s, t)) < Rank(s)
  {
    match s.threads[t].task
    case Execute(_, _) => ExecuteLowersRank(s, t);
    case Deliver(_, _) => DeliverLowersRank(s, t);
    case Attach(_, _) => AttachLowersRank(s, t);
  }

  /** From any reachable state, however the threads are scheduled, they return after at most `Rank` steps. */
  lemma {:induction false} CascadesEnd(s: System, actions: seq<Action>)
    requires Reachable(s) && Possible(s, actions)
    requires forall k :: 0 <= k < |actions| ==> actions[k].Resume?
    ensures |actions| <= Rank(s)
  {
    ReachableIsInvariant(s);
    StepsAreBounded(s, actions);
  }

  lemma {:induction false} StepsAreBounded(s: System, actions: seq<Action>)
    requires Invariant(s) && Possible(s, actions)
    requires forall k :: 0 <= k < |actions| ==> actions[k].Resume?
    ensures |actions| <= Rank(s)
    decreases |actions|
  {
    if actions != [] {
      var t := actions[0].thread;
      ResumeKeepsInvariant(s, t);
      ResumeLowersRank(s, t);
      StepsAreBounded(Resumed(s, t), actions[1..]);
    }
  }

  // ----- quiescent states

  lemma {:induction false} QuiescentTotals(s: System, o: Id)
    requires Quiescent(s)
    ensures ThreadTotal(RunningFunctor(o), s.threads) == 0
    ensures ThreadTotal(Resolving(o), s.threads) == 0
  {
    if ThreadTotal(RunningFunctor(o), s.threads) > 0 {
      var t := ThreadTotalHasTerm(RunningFunctor(o), s.threads);
    }
    if ThreadTotal(Resolving(o), s.threads) > 0 {
      var t := ThreadTotalHasTerm(Resolving(o), s.threads);
    }
  }

  lemma {:induction false} WaitingFunctorIsAtInput(s: System, o: Id)
    requires MakesSense(s) && o < |s.nodes| && s.nodes[o].origin.FromThen?
    requires NodeTotal(WaitingFunctor(o), s.nodes) > 0
    ensures var input := s.nodes[o].origin.input;
            input < |s.nodes| && (!s.IsReady(input) || Stuck(s, input, o))
  {
    var i := NodeTotalHasTerm(WaitingFunctor(o), s.nodes);
    assert NodeMakesSense(s, i);
  }

  lemma {:induction false} WaitingForwardIsAtInner(s: System, o: Id)
    requires MakesSense(s) && o < |s.nodes| && s.nodes[o].origin.FromThen?
    requires NodeTotal(WaitingForward(o), s.nodes) > 0
    ensures !Fulfilled(s, o)
  {
    var i := NodeTotalHasTerm(WaitingForward(o), s.nodes);
    assert NodeMakesSense(s, i) && NodeMakesSense(s, o);
  }

  /**
   Once all threads have returned, a future made by `then` is satisfied if and only if
   its input was, the functor was not stranded and raised no `future_error`, and a future
   that it returned was satisfied with something else than a `future_error` and is not one
   that a functor had kept; and the outcome is then the right one.
   */
  lemma {:induction false} ThenIsExact(s: System, o: Id)
    requires Reachable(s) && Quiescent(s) && o < |s.nodes| && s.nodes[o].origin.FromThen?
    ensures s.IsReady(o) <==> Fulfilled(s, o)
    ensures s.IsReady(o) ==> Explains(s, o, s.OutcomeOf(o))
  {
    ReachableIsInvariant(s);
    var input := s.nodes[o].origin.input;
    assert Balanced(s, o);
    QuiescentTotals(s, o);
    assert NodeMakesSense(s, o);
    if s.IsReady(o) {
      NodeTotalAtLeast(WaitingFunctor(o), s.nodes, input);
      assert !Stuck(s, input, o);
    } else if Fulfilled(s, o) {
      assert o !in s.lost;
      if NodeTotal(WaitingFunctor(o), s.nodes) > 0 {
        WaitingFunctorIsAtInput(s, o);
      } else {
        WaitingForwardIsAtInner(s, o);
      }
    }
  }

  /** Once all threads have returned, the functor has run exactly if its input is satisfied and it is not stranded. */
  lemma {:induction false} FunctorRunsExactlyOnce(s: System, o: Id)
    requires Reachable(s) && Quiescent(s) && o < |s.nodes| && s.nodes[o].origin.FromThen?
    ensures var input := s.nodes[o].origin.input;
            input < |s.nodes| && s.runs[o] == if s.IsReady(input) && !Stuck(s, input, o) then 1 else 0
  {
    ReachableIsInvariant(s);
    var input := s.nodes[o].origin.input;
    assert Balanced(s, o) && NodeMakesSense(s, o);
    QuiescentTotals(s, o);
    FunctorRunsOnceWhenReady(s, o);
    NodeTotalAtLeast(WaitingFunctor(o), s.nodes, input);
    if NodeTotal(WaitingFunctor(o), s.nodes) > 0 {
      WaitingFunctorIsAtInput(s, o);
    }
  }

  /** The result of a future, if there is one. */
  function ResultAt(s: System, i: Id): Option<Outcome> {
    if s.IsReady(i) then Some(s.OutcomeOf(i)) else None
  }

  /** What a functor that replies in this way is to lead to, given the result of the future it returned. */
  function Expected(reply: Reply, inner: Option<Outcome>): Option<Outcome> {
    match reply
    case Delivers(r) => Some(r)
    case Escapes => None
    case Awaits(_) => if inner.Some? && IsFutureError(inner.value) then None else inner
  }

  lemma {:induction false} AllGetIsNotKept(s: System, i: Id)
    requires MakesSense(s) && i < |s.nodes| && AllGet(s, i)
    ensures !Kept(s, i)
  {
    assert NodeMakesSense(s, i);
  }

  /** Once all threads have returned, the result follows from those of the input and the returned future. */
  lemma {:induction false} ResultIsExpected(s: System, o: Id, reply: Reply, inner: Option<Outcome>)
    requires Reachable(s) && Quiescent(s) && o < |s.nodes| && s.nodes[o].origin.FromThen?
    requires s.IsReady(s.nodes[o].origin.input) && !Stuck(s, s.nodes[o].origin.input, o)
    requires reply == ReplyOf(s.nodes[o].origin.work, s.OutcomeOf(s.nodes[o].origin.input))
    requires reply.Awaits? ==> inner == ResultAt(s, reply.inner) && AllGet(s, reply.inner)
    ensures ResultAt(s, o) == Expected(reply, inner)
  {
    ReachableIsInvariant(s);
    ThenIsExact(s, o);
    if reply.Awaits? && reply.inner < |s.nodes| {
      AllGetIsNotKept(s, reply.inner);
    }
  }

  /**
   Two runs, in whatever interleavings, that have the same results of the input and of the
   returned future have the same result, and both have one if these do.
   */
  lemma {:induction false} OrderDoesNotMatter(s1: System, s2: System, o1: Id, o2: Id)
    requires Reachable(s1) && Quiescent(s1) && o1 < |s1.nodes| && s1.nodes[o1].origin.FromThen?
    requires Reachable(s2) && Quiescent(s2) && o2 < |s2.nodes| && s2.nodes[o2].origin == s1.nodes[o1].origin
    requires var input := s1.nodes[o1].origin.input;
             && s1.IsReady(input) && !Stuck(s1, input, o1)
             && s2.IsReady(input) && !Stuck(s2, input, o2)
             && s1.OutcomeOf(input) == s2.OutcomeOf(input)
    requires var reply := ReplyOf(s1.nodes[o1].origin.work, s1.OutcomeOf(s1.nodes[o1].origin.input));
             reply.Awaits? ==>
               && ResultAt(s1, reply.inner) == ResultAt(s2, reply.inner)
               && AllGet(s1, reply.inner) && AllGet(s2, reply.inner)
    ensures ResultAt(s1, o1) == ResultAt(s2, o2)
    ensures var reply := ReplyOf(s1.nodes[o1].origin.work, s1.OutcomeOf(s1.nodes[o1].origin.input));
            s1.IsReady(o1) <==>
              && !reply.Escapes?
              && (reply.Awaits? ==> s1.IsReady(reply.inner) && !IsFutureError(s1.OutcomeOf(reply.inner)))
  {
    var reply := ReplyOf(s1.nodes[o1].origin.work, s1.OutcomeOf(s1.nodes[o1].origin.input));
    var inner := if reply.Awaits? then ResultAt(s1, reply.inner) else None;
    ResultIsExpected(s1, o1, reply, inner);
    ResultIsExpected(s2, o2, reply, inner);
  }

  // ----- chains

  /** Each future of `path` was made by `then`, with the next of the functors, on the one before it. */
  ghost predicate Chain(s: System, head: Id, path: seq<Id>, functors: seq<Outcome -> Outcome>)
    decreases |path|
  {
    && |path| == |functors|
    && (path != [] ==>
          && path[0] < |s.nodes|
          && s.nodes[path[0]].origin.FromThen?
          && s.nodes[path[0]].origin.input == head
          && s.nodes[path[0]].origin.work.Plain?
          && s.nodes[path[0]].origin.work.functor == functors[0]
          && Chain(s, path[0], path[1..], functors[1..]))
  }

  function Composed(x: Outcome, functors: seq<Outcome -> Outcome>): Outcome
    decreases |functors|
  {
    if functors == [] then x else Composed(functors[0](x), functors[1..])
  }

  ghost predicate NoFutureError(x: Outcome, functors: seq<Outcome -> Outcome>)
    decreases |functors|
  {
    functors == [] || (!IsFutureError(functors[0](x)) && NoFutureError(functors[0](x), functors[1..]))
  }

  /**
   For a chain of any length, attached in any order and interleaving: the last future is
   satisfied if and only if the head is, the first functor was not stranded by an
   abandoned promise and no functor raised a `future_error`; and its outcome is the
   composition of the functors.
   */
  lemma {:induction false} ChainIsExact(s: System, head: Id, path: seq<Id>, functors: seq<Outcome -> Outcome>)
    requires Reachable(s) && Quiescent(s) && head < |s.nodes|
    requires path != [] && Chain(s, head, path, functors)
    ensures s.IsReady(path[|path| - 1]) <==>
              s.IsReady(head) && !Stuck(s, head, path[0]) && NoFutureError(s.OutcomeOf(head), functors)
    ensures s.IsReady(path[|path| - 1]) ==>
              s.IsReady(head) && s.OutcomeOf(path[|path| - 1]) == Composed(s.OutcomeOf(head), functors)
    decreases |path|
  {
    var first := path[0];
    ThenIsExact(s, first);
    if |path| > 1 {
      ReachableIsInvariant(s);
      ChainIsExact(s, first, path[1..], functors[1..]);
      assert NodeMakesSense(s, first);
      assert path[1..][|path| - 2] == path[|path| - 1];
    }
  }

  lemma {:induction false} ExceptionsCompose(e: Exception, functors: seq<Outcome -> Outcome>)
    requires e.OtherException?
    requires forall k :: 0 <= k < |functors| ==> functors[k](Raised(e)) == Raised(e)
    ensures Composed(Raised(e), functors) == Raised(e) && NoFutureError(Raised(e), functors)
    decreases |functors|
  {
    if functors != [] {
      ExceptionsCompose(e, functors[1..]);
    }
  }

  /** Through functors that let the exceptions of `get()` pass, an exception reaches the end of any chain. */
  lemma {:induction false} ExceptionsPropagate(
      s: System, head: Id, path: seq<Id>, functors: seq<Outcome -> Outcome>, e: Exception)
    requires Reachable(s) && Quiescent(s) && path != [] && Chain(s, head, path, functors)
    requires s.IsReady(head) && s.OutcomeOf(head) == Raised(e) && e.OtherException?
    requires forall k :: 0 <= k < |functors| ==> functors[k](Raised(e)) == Raised(e)
    ensures s.IsReady(path[|path| - 1]) && s.OutcomeOf(path[|path| - 1]) == Raised(e)
  {
    ReachableIsInvariant(s);
    assert NodeMakesSense(s, head);
    ExceptionsCompose(e, functors);
    ChainIsExact(s, head, path, functors);
  }

  // ----- implicit unwrapping

  /** The output gets the exception of the functor, `broken_promise` for an invalid future, or the inner result. */
  lemma {:induction false} UnwrappingIsExact(s: System, o: Id)
    requires Reachable(s) && Quiescent(s) && o < |s.nodes|
    requires s.nodes[o].origin.FromThen? && s.nodes[o].origin.work.Unwrap?
    requires s.IsReady(s.nodes[o].origin.input) && !Stuck(s, s.nodes[o].origin.input, o)
    ensures var FromThen(input, work) := s.nodes[o].origin;
            match work.unwrapFunctor(s.OutcomeOf(input))
            case Throws(e) => s.IsReady(o) && s.OutcomeOf(o) == Raised(e)
            case InvalidFuture => s.IsReady(o) && s.OutcomeOf(o) == Raised(FutureError(BrokenPromise))
            case ValidFuture(k) =>
              && (s.IsReady(o) <==>
                    s.IsReady(k) && !IsFutureError(s.OutcomeOf(k)) && !Kept(s, k))
              && (s.IsReady(o) ==> s.OutcomeOf(o) == s.OutcomeOf(k))
  {
    ThenIsExact(s, o);
  }

  // ----- a functor that returns its argument

  lemma {:induction false} ReturningTheArgumentNeedsNoContinuation(s: System, o: Id)
    requires Reachable(s) && Quiescent(s) && o < |s.nodes| && s.nodes[o].origin.FromThen?
    requires var FromThen(input, work) := s.nodes[o].origin;
             && s.IsReady(input) && !IsFutureError(s.OutcomeOf(input))
             && ReplyOf(work, s.OutcomeOf(input)) == Awaits(input)
    ensures s.IsReady(o) <==> s.nodes[s.nodes[o].origin.input].cell.continuation.None?
  {
    ReachableIsInvariant(s);
    ThenIsExact(s, o);
    assert NodeMakesSense(s, s.nodes[o].origin.input);
  }

  /**
   For a call of `then` that does not throw at once, and whatever happens after it: the
   functor's returning its argument works if and only if the future was satisfied when
   `then` was called.
   */
  lemma {:induction false} ReturningTheArgumentIsExact(s: System, i: Id, work: Work, actions: seq<Action>)
    requires Reachable(s) && Enabled(s, Then(i, work)) && |Apply(s, Then(i, work)).nodes| > |s.nodes|
    requires Possible(s, [Then(i, work)] + actions)
    requires var e := After(s, [Then(i, work)] + actions);
             && Quiescent(e) && e.IsReady(i) && !IsFutureError(e.OutcomeOf(i))
             && ReplyOf(work, e.OutcomeOf(i)) == Awaits(i)
    ensures After(s, [Then(i, work)] + actions).IsReady(|s.nodes|) <==> s.IsReady(i)
  {
    var run := [Then(i, work)] + actions;
    var s1, e := Apply(s, Then(i, work)), After(s, run);
    assert run[1..] == actions;
    OutcomesAreFinal(s1, actions);
    ReachableGoesOn(s, run);
    ReturningTheArgumentNeedsNoContinuation(e, |s.nodes|);
  }
}
