/** What the whole history of a program says about its futures, read off the actions alone. */
module FutureHistories {
  import opened Options
  import opened SharedStates
  import opened FutureSystems
  import opened FutureMeaning
  import opened FutureLedger
  import opened FutureTheorems

  // ----- promises

  /** The result that the first `set_value`, `set_exception` or destruction of promise `i` gives. */
  function FirstOutcome(actions: seq<Action>, i: Id): Option<Outcome> {
    if actions == [] then None
    else
      match actions[0]
      case Satisfy(k, outcome) => if k == i then Some(outcome) else FirstOutcome(actions[1..], i)
      case DestroyPromise(k) =>
        if k == i then Some(Raised(FutureError(BrokenPromise))) else FirstOutcome(actions[1..], i)
      case _ => FirstOutcome(actions[1..], i)
  }

  /** The state of `i`, if there is one, belongs to a promise. */
  ghost predicate OfPromise(s: System, i: Id) {
    i < |s.nodes| ==> s.nodes[i].origin.FromPromise?
  }

  /** Threads of the library do not touch the state of a promise, except to store a continuation. */
  lemma {:induction false} ResumeLeavesPromise(s: System, t: nat, i: Id)
    requires MakesSense(s) && CanResume(s, t) && OfPromise(s, i)
    ensures ResultAt(Resumed(s, t), i) == ResultAt(s, i)
    ensures |Resumed(s, t).nodes| == |s.nodes|
    ensures i < |s.nodes| ==> Resumed(s, t).nodes[i].cell.retrieved == s.nodes[i].cell.retrieved
  {
    hide MakesSense, ReplyOf;
    ThreadIsSensible(s, t);
    match s.threads[t].task
    case Execute(_, _) => ExecuteStep(s, t);
    case Deliver(_, _) =>
    case Attach(_, _) => AttachStep(s, t);
  }

  lemma {:induction false} ThenLeavesResults(s: System, k: Id, work: Work, i: Id)
    requires k < |s.nodes|
    ensures ResultAt(Attached(s, k, work), i) == ResultAt(s, i)
  {
  }

  lemma {:induction false} PromiseStepSettles(s: System, a: Action, i: Id)
    requires Enabled(s, a) && !a.Resume? && !a.Then?
    ensures ResultAt(Apply(s, a), i) == if s.IsReady(i) then ResultAt(s, i) else FirstOutcome([a], i)
  {
    assert [a][1..] == [];
  }

  lemma {:induction false} StepSettles(s: System, a: Action, i: Id)
    requires MakesSense(s) && Enabled(s, a) && OfPromise(Apply(s, a), i)
    ensures ResultAt(Apply(s, a), i) == if s.IsReady(i) then ResultAt(s, i) else FirstOutcome([a], i)
  {
    hide MakesSense, Resumed, Attached, ResultAt;
    assert [a][1..] == [];
    if a.Resume? {
      StepExtends(s, a);
      ResumeLeavesPromise(s, a.thread, i);
      NotReadyHasNoResult(s, i);
    } else if a.Then? {
      ThenLeavesResults(s, a.id, a.work, i);
      NotReadyHasNoResult(s, i);
    } else {
      PromiseStepSettles(s, a, i);
    }
  }

  lemma {:induction false} NotReadyHasNoResult(s: System, i: Id)
    ensures s.IsReady(i) <==> ResultAt(s, i).Some?
  {
  }

  lemma {:induction false} RunSettles(s: System, actions: seq<Action>, i: Id)
    requires Invariant(s) && Possible(s, actions) && OfPromise(After(s, actions), i)
    ensures ResultAt(After(s, actions), i) == if s.IsReady(i) then ResultAt(s, i) else FirstOutcome(actions, i)
    decreases |actions|
  {
    if actions != [] {
      hide MakesSense, Balanced, Linear, Spent, Apply;
      var s' := Apply(s, actions[0]);
      StepKeepsInvariant(s, actions[0]);
      OutcomesAreFinal(s', actions[1..]);
      RunSettles(s', actions[1..], i);
      StepSettles(s, actions[0], i);
      assert [actions[0]][1..] == [];
    }
  }

  /**
   In every run, a promise's state is satisfied if and only if a result was set or the promise
   destroyed, and `get()` yields what the first of these actions says.
   */
  lemma {:induction false} PromiseOutcomeIsExact(actions: seq<Action>, i: Id)
    requires Possible(EMPTY_SYSTEM, actions) && OfPromise(After(EMPTY_SYSTEM, actions), i)
    ensures ResultAt(After(EMPTY_SYSTEM, actions), i) == FirstOutcome(actions, i)
  {
    EmptySystemIsFine();
    RunSettles(EMPTY_SYSTEM, actions, i);
  }

  /** A result that is set on an unsatisfied promise is what its state holds from then on. */
  lemma {:induction false} SatisfiedForEver(s: System, i: Id, outcome: Outcome, actions: seq<Action>)
    requires Reachable(s) && i in s.promises
    ensures Enabled(s, Satisfy(i, outcome))
    ensures s.IsReady(i) ==> Apply(s, Satisfy(i, outcome)) == s
    ensures !s.IsReady(i) && Possible(s, [Satisfy(i, outcome)] + actions) ==>
              ResultAt(After(s, [Satisfy(i, outcome)] + actions), i) == Some(outcome)
  {
    ReachableIsInvariant(s);
    var run := [Satisfy(i, outcome)] + actions;
    if !s.IsReady(i) && Possible(s, run) {
      assert run[1..] == actions;
      OutcomesAreFinal(s, run);
      RunSettles(s, run, i);
    }
  }

  // ----- futures

  /** How often a future of `i` was destroyed. */
  function Drops(actions: seq<Action>, i: Id): nat {
    if actions == [] then 0
    else (if actions[0].Drop? && actions[0].id == i then 1 else 0) + Drops(actions[1..], i)
  }

  /** Whether `get_future()` was called on promise `i`. */
  predicate Requested(actions: seq<Action>, i: Id) {
    actions != [] && ((actions[0].GetFuture? && actions[0].id == i) || Requested(actions[1..], i))
  }

  predicate RetrievedAt(s: System, i: Id) {
    i < |s.nodes| && s.nodes[i].cell.retrieved
  }

  lemma {:induction false} ResumeDropsNothing(s: System, t: nat)
    requires CanResume(s, t)
    ensures Resumed(s, t).dropped == s.dropped
  {
    match s.threads[t].task
    case Execute(_, _) => ExecuteStep(s, t);
    case Deliver(_, _) =>
    case Attach(_, _) => AttachStep(s, t);
  }

  lemma {:induction false} RunDrops(s: System, actions: seq<Action>, i: Id)
    requires Possible(s, actions)
    ensures After(s, actions).dropped[i] == s.dropped[i] + Drops(actions, i)
    decreases |actions|
  {
    if actions != [] {
      hide Resumed;
      if actions[0].Resume? {
        ResumeDropsNothing(s, actions[0].thread);
      }
      RunDrops(Apply(s, actions[0]), actions[1..], i);
    }
  }

  lemma {:induction false} StepRetrieves(s: System, a: Action, i: Id)
    requires MakesSense(s) && Enabled(s, a) && OfPromise(Apply(s, a), i)
    ensures RetrievedAt(Apply(s, a), i) <==> RetrievedAt(s, i) || (a.GetFuture? && a.id == i)
  {
    hide MakesSense;
    StepExtends(s, a);
    if a.Resume? {
      hide Resumed;
      ResumeLeavesPromise(s, a.thread, i);
    }
  }

  lemma {:induction false} RunRetrieves(s: System, actions: seq<Action>, i: Id)
    requires Invariant(s) && Possible(s, actions) && OfPromise(After(s, actions), i)
    ensures RetrievedAt(After(s, actions), i) <==> RetrievedAt(s, i) || Requested(actions, i)
    decreases |actions|
  {
    if actions != [] {
      hide MakesSense, Balanced, Linear, Spent, Apply;
      var s' := Apply(s, actions[0]);
      StepKeepsInvariant(s, actions[0]);
      OutcomesAreFinal(s', actions[1..]);
      RunRetrieves(s', actions[1..], i);
      StepRetrieves(s, actions[0], i);
    }
  }

  /** Whether this step retrieves the value of `i`: `get()` by the program, or by a functor that is executed. */
  predicate Retrieves(s: System, a: Action, i: Id) {
    || (a.Get? && a.id == i)
    || (&& a.Resume? && a.thread < |s.threads| && s.threads[a.thread].task.Execute?
        && s.threads[a.thread].task.input == i
        && (s.threads[a.thread].task.continuation.work.Forward?
            || s.threads[a.thread].task.continuation.work.callsGet))
  }

  ghost function Retrievals(s: System, actions: seq<Action>, i: Id): nat
    requires Possible(s, actions)
    decreases |actions|
  {
    if actions == [] then 0
    else (if Retrieves(s, actions[0], i) then 1 else 0) + Retrievals(Apply(s, actions[0]), actions[1..], i)
  }

  lemma {:induction false} ResumeGets(s: System, t: nat, i: Id)
    requires CanResume(s, t)
    ensures Resumed(s, t).gets[i] == s.gets[i] + if Retrieves(s, Resume(t), i) then 1 else 0
  {
    match s.threads[t].task
    case Execute(_, _) => ExecuteStep(s, t);
    case Deliver(_, _) =>
    case Attach(_, _) => AttachStep(s, t);
  }

  /** The retrievals are counted. */
  lemma {:induction false} GetsAreExact(s: System, actions: seq<Action>, i: Id)
    requires Possible(s, actions)
    ensures After(s, actions).gets[i] == s.gets[i] + Retrievals(s, actions, i)
    decreases |actions|
  {
    if actions != [] {
      hide Resumed;
      if actions[0].Resume? {
        ResumeGets(s, actions[0].thread, i);
      }
      GetsAreExact(Apply(s, actions[0]), actions[1..], i);
    }
  }

  /**
   In every run, every future is accounted for. A state made by `then`, and one whose promise
   was asked for its future, has one, and one more for each `then` on it that threw. These are
   the futures that are free for use, claimed by a thread, used up by `get()`, stored as the
   input of a continuation or about to be, destroyed, or wasted; and only a `then` that threw,
   or a second attachment to a kept future, wastes one.
   */
  lemma {:induction false} FuturesAreConserved(actions: seq<Action>, i: Id)
    requires Possible(EMPTY_SYSTEM, actions) && i < |After(EMPTY_SYSTEM, actions).nodes|
    ensures var e := After(EMPTY_SYSTEM, actions);
            && e.handles[i] + ThreadTotal(Claiming(i), e.threads) + e.gets[i] + WaitsAt(e, i)
               + ThreadTotal(Executing(i), e.threads) + Drops(actions, i) + e.wasted[i]
            == (if e.nodes[i].origin.FromThen? || Requested(actions, i) then 1 else 0) + e.unwound[i]
            && (i in e.wasted ==> i in e.thrown || Kept(e, i))
  {
    hide ThreadTotal;
    EmptySystemIsFine();
    RunKeepsInvariant(EMPTY_SYSTEM, actions);
    var e := After(EMPTY_SYSTEM, actions);
    assert Linear(e, i) && (i in e.wasted ==> WasteMakesSense(e, i));
    RunDrops(EMPTY_SYSTEM, actions, i);
    assert e.nodes[i].cell.retrieved ==> RetrievedAt(e, i);
    if e.nodes[i].origin.FromPromise? {
      RunRetrieves(EMPTY_SYSTEM, actions, i);
    }
  }

  lemma {:induction false} DroppedByRun(s: System, actions: seq<Action>, o: Id)
    requires Reachable(s) && Possible(s, actions) && o >= |s.nodes|
    ensures After(s, actions).dropped[o] == Drops(actions, o)
  {
    hide ThreadTotal;
    ReachableIsInvariant(s);
    assert Linear(s, o);
    RunDrops(s, actions, o);
    assert o in s.unwound ==> UnwoundMakesSense(s, o);
  }

  /**
   A `then` call on a satisfied future that is over and has not thrown has given its caller a
   future of the output: in every interleaving it is there until something is done with it.
   */
  lemma {:induction false} ThenReturnsItsFuture(s: System, i: Id, work: Work, actions: seq<Action>)
    requires Reachable(s) && i in s.handles && !work.Forward? && s.IsReady(i) && !Kept(s, i)
    requires Possible(s, [Then(i, work)] + actions)
    requires var e := After(s, [Then(i, work)] + actions);
             && |s.threads| < |e.threads| && e.threads[|s.threads|].task.Idle?
             && |s.nodes| !in e.thrown
    ensures var e, o := After(s, [Then(i, work)] + actions), |s.nodes|;
            && o < |e.nodes|
            && (e.nodes[o].cell.continuation.Some? || Used(e, o) > 0 || Drops(actions, o) > 0
                || ThreadTotal(Claiming(o), e.threads) > 0 || o in e.handles)
  {
    hide ThreadTotal;
    var run := [Then(i, work)] + actions;
    var e, o := After(s, run), |s.nodes|;
    assert run[1..] == actions;
    ThenAttachesExactly(s, i, work);
    OutcomesAreFinal(Apply(s, Then(i, work)), actions);
    ReachableGoesOn(s, run);
    ReachableIsInvariant(e);
    DroppedByRun(s, run, o);
    assert Linear(e, o) && (o in e.wasted ==> WasteMakesSense(e, o));
  }
}
