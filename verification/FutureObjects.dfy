/**
 The objects take the steps of the system. A `Program` holds the shared states that have
 been made and what each thread inside the library has yet to do; each of its methods
 performs one action with the objects of `SharedStates` and `FutureHandles`.
 */
module FutureObjects {
  import opened Options
  import opened SharedStates
  import opened FutureHandles
  import opened FutureSystems
  import opened FutureTheorems
  import opened FutureHistories

  /** The system is where this history has led. */
  ghost predicate IsHistory(history: seq<Action>, s: System) {
    Possible(EMPTY_SYSTEM, history) && s == After(EMPTY_SYSTEM, history)
  }

  lemma {:induction false} HistoryGrows(history: seq<Action>, s: System, a: Action)
    requires IsHistory(history, s) && Enabled(s, a)
    ensures IsHistory(history + [a], Apply(s, a))
  {
    assert [a][1..] == [];
    assert Possible(s, [a]) && After(s, [a]) == Apply(s, a);
    RunsConcatenate(EMPTY_SYSTEM, history, [a]);
  }

  lemma {:induction false} HistoryStarts()
    ensures IsHistory([], EMPTY_SYSTEM)
  {
  }

  lemma {:induction false} PromiseHistory(history: seq<Action>, s: System, i: Id)
    requires IsHistory(history, s) && s.IsReady(i)
    ensures s.nodes[i].origin.FromPromise? ==> FirstOutcome(history, i) == Some(s.OutcomeOf(i))
  {
    if s.nodes[i].origin.FromPromise? {
      PromiseOutcomeIsExact(history, i);
    }
  }

  /** What calling `then` changes in nodes and threads. */
  lemma {:induction false} ThenStep(s: System, i: Id, work: Work)
    requires i < |s.nodes|
    ensures var s' := Attached(s, i, work);
            match SetContinuation(s.nodes[i].cell, Continuation(work, |s.nodes|))
            case Fails(_) => s' == s
            case Done(cell, execute) =>
              && s'.nodes == WithCell(s, i, cell).nodes + [Node(NEW_CELL, FromThen(i, work), false)]
              && s'.threads == s.threads + if execute.None? then []
                                           else [Thread(Execute(i, execute.value), ThenCall(i, |s.nodes|))]
  {
  }

  /** What a thread has to do after the functor for `output` has replied. */
  function GoesOn(thread: Thread, reply: Reply, output: Id): Thread {
    match reply
    case Delivers(r) => thread.(task := Deliver(output, r))
    case Awaits(k) => thread.(task := Attach(k, Continuation(Forward, output)))
    case Escapes => Thread(Idle, NoFrame)
  }

  class Program {
    var states: seq<SharedState>
    var threads: seq<Thread>
    ghost var model: System
    ghost var history: seq<Action>

    /** The shared states are different objects, and each is what the system says. */
    ghost predicate Matches()
      reads `states, `model, states
    {
      && |states| == |model.nodes|
      && (forall i, j :: 0 <= i < j < |states| ==> states[i] != states[j])
      && (forall i :: 0 <= i < |states| ==> states[i].Valid() && states[i].Abstract() == model.nodes[i].cell)
    }

    ghost predicate Valid()
      reads this, states
    {
      Matches() && threads == model.threads && IsHistory(history, model)
    }

    /** The history of the system moves on; the shared states do not change. */
    ghost method Become(s: System)
      requires Matches() && s.nodes == model.nodes
      modifies `model
      ensures Matches() && model == s
    {
      model := s;
    }

    constructor ()
      ensures Valid() && states == [] && model == EMPTY_SYSTEM && history == []
    {
      states, threads, model, history := [], [], EMPTY_SYSTEM, [];
      new;
      HistoryStarts();
    }

    method NewPromise() returns (promise: Promise)
      requires Valid()
      modifies this
      ensures Valid() && model == Apply(old(model), Action.NewPromise)
      ensures history == old(history) + [Action.NewPromise]
      ensures fresh(promise) && promise.sharedState != null && fresh(promise.sharedState)
      ensures states == old(states) + [promise.sharedState]
    {
      hide IsHistory;
      HistoryGrows(history, model, Action.NewPromise);
      history := history + [Action.NewPromise];
      promise := new Promise();
      states := states + [promise.sharedState];
      model := Apply(model, Action.NewPromise);
    }

    /** Gives a future of shared state `i` unless there has been one. */
    method GetFuture(promise: Promise, i: Id) returns (thrown: Option<FutureErrc>, future: Future?)
      requires Valid() && i < |states| && i in model.promises && promise.sharedState == states[i]
      modifies this, states
      ensures Valid() && states == old(states) && model == Apply(old(model), Action.GetFuture(i))
      ensures history == old(history) + [Action.GetFuture(i)]
      ensures thrown == if old(model).nodes[i].cell.retrieved then Some(FutureAlreadyRetrieved) else None
      ensures thrown.None? <==> future != null
      ensures future != null ==> fresh(future) && future.sharedState == states[i]
    {
      hide IsHistory;
      HistoryGrows(history, model, Action.GetFuture(i));
      history := history + [Action.GetFuture(i)];
      thrown, future := promise.GetFuture();
      model := Apply(model, Action.GetFuture(i));
    }

    /** `set_value` or `set_exception` through the promise of shared state `i`. */
    method SetBy(promise: Promise, i: Id, r: Outcome)
      returns (thrown: Option<FutureErrc>, execute: Option<Continuation>)
      requires Matches() && i < |states| && promise.sharedState == states[i]
      modifies states[i], `model
      ensures Matches()
      ensures match SetOutcome(old(model).nodes[i].cell, r)
              case Fails(code) => thrown == Some(code) && execute == None && model == old(model)
              case Done(cell, run) => thrown == None && execute == run && model == WithCell(old(model), i, cell)
    {
      thrown, execute := promise.SetResult(r);
      if thrown.None? {
        model := WithCell(model, i, states[i].Abstract());
      }
    }

    /** A stored continuation becomes the task of the thread that satisfies the promise. */
    method Satisfy(promise: Promise, i: Id, outcome: Outcome) returns (thrown: Option<FutureErrc>)
      requires Valid() && i < |states| && i in model.promises && promise.sharedState == states[i]
      modifies this, states
      ensures Valid() && states == old(states) && model == Apply(old(model), Action.Satisfy(i, outcome))
      ensures history == old(history) + [Action.Satisfy(i, outcome)]
      ensures thrown == if old(model).IsReady(i) then Some(PromiseAlreadySatisfied) else None
      ensures thrown.Some? ==> model == old(model)
      ensures thrown.None? ==> ResultAt(model, i) == Some(outcome)
    {
      hide IsHistory, SharedState.Abstract, SharedState.Valid;
      HistoryGrows(history, model, Action.Satisfy(i, outcome));
      history := history + [Action.Satisfy(i, outcome)];
      ghost var before := model;
      var execute;
      thrown, execute := SetBy(promise, i, outcome);
      Become(Apply(before, Action.Satisfy(i, outcome)));
      if execute.Some? {
        threads := threads + [Thread(Execute(i, execute.value), NoFrame)];
      }
    }

    method DestroyPromise(promise: Promise, i: Id)
      requires Valid() && i < |states| && i in model.promises && promise.sharedState == states[i]
      modifies this, states, promise
      ensures Valid() && states == old(states) && model == Apply(old(model), Action.DestroyPromise(i))
      ensures history == old(history) + [Action.DestroyPromise(i)]
      ensures promise.sharedState == null
      ensures ResultAt(model, i) == if old(model).IsReady(i) then ResultAt(old(model), i)
                                    else Some(Raised(FutureError(BrokenPromise)))
    {
      hide IsHistory;
      HistoryGrows(history, model, Action.DestroyPromise(i));
      history := history + [Action.DestroyPromise(i)];
      promise.Destroy();
      model := Apply(model, Action.DestroyPromise(i));
    }

    /** `get()` on a future that is ready. The future of a promise yields what was set first. */
    method Get(future: Future, i: Id) returns (outcome: Outcome)
      requires Valid() && i in model.handles && model.IsReady(i) && future.sharedState == states[i]
      modifies this, future
      ensures Valid() && states == old(states) && model == Apply(old(model), Action.Get(i))
      ensures history == old(history) + [Action.Get(i)]
      ensures !future.IsValid() && outcome == old(model).OutcomeOf(i)
      ensures old(model).nodes[i].origin.FromPromise? ==> FirstOutcome(old(history), i) == Some(outcome)
    {
      PromiseHistory(history, model, i);
      hide IsHistory;
      HistoryGrows(history, model, Action.Get(i));
      history := history + [Action.Get(i)];
      var _, result := future.Get();
      outcome := result.value;
      model := Apply(model, Action.Get(i));
    }

    /** A future is destroyed. */
    method Drop(future: Future, i: Id)
      requires Valid() && i < |states| && i in model.handles && future.sharedState == states[i]
      modifies this, future
      ensures Valid() && states == old(states) && model == Apply(old(model), Action.Drop(i))
      ensures history == old(history) + [Action.Drop(i)]
      ensures !future.IsValid()
    {
      hide IsHistory;
      HistoryGrows(history, model, Action.Drop(i));
      history := history + [Action.Drop(i)];
      future.sharedState := null;
      model := Apply(model, Action.Drop(i));
    }

    /** The first part of `then`. */
    method AttachTo(future: Future, i: Id, c: Continuation)
      returns (thrown: Option<FutureErrc>, execute: Option<Continuation>)
      requires Matches() && i < |states| && future.sharedState == states[i]
      modifies states[i], `model
      ensures Matches()
      ensures match SetContinuation(old(model).nodes[i].cell, c)
              case Fails(code) => thrown == Some(code) && execute == None && model == old(model)
              case Done(cell, run) => thrown == None && execute == run && model == WithCell(old(model), i, cell)
    {
      thrown, execute := future.AttachContinuation(c);
      if thrown.None? {
        model := WithCell(model, i, states[i].Abstract());
      }
    }

    /** A new shared state joins the others. */
    method Adopt(state: SharedState, ghost origin: Origin)
      requires Matches() && state !in states && state.Valid() && state.Abstract() == NEW_CELL
      modifies `states, `model
      ensures Matches() && states == old(states) + [state]
      ensures model == old(model).(nodes := old(model).nodes + [Node(NEW_CELL, origin, false)])
    {
      states := states + [state];
      model := model.(nodes := model.nodes + [Node(NEW_CELL, origin, false)]);
    }

    /**
     The start of `then`. It throws, or stores the continuation and returns the new future,
     or becomes a call in progress, during which the old future stays valid.
     */
    method Then(future: Future, i: Id, work: Work) returns (thrown: Option<FutureErrc>, next: Future?)
      requires Valid() && i < |states| && i in model.handles && future.sharedState == states[i] && !work.Forward?
      modifies this, states, future
      ensures Valid() && model == Apply(old(model), Action.Then(i, work))
      ensures history == old(history) + [Action.Then(i, work)]
      ensures thrown == if old(model).nodes[i].cell.continuation.Some? then Some(FutureAlreadyRetrieved) else None
      ensures thrown.Some? ==> states == old(states) && next == null && future.sharedState == states[i]
      ensures thrown.None? ==> |states| == |old(states)| + 1 && old(states) <= states
      ensures thrown.None? && old(model).IsReady(i) ==>
                next == null && future.sharedState == states[i] && |threads| == |old(threads)| + 1
      ensures thrown.None? && !old(model).IsReady(i) ==>
                next != null && fresh(next) && next.sharedState == states[|old(states)|] && !future.IsValid()
    {
      hide IsHistory, SharedState.Abstract, SharedState.Valid;
      HistoryGrows(history, model, Action.Then(i, work));
      history := history + [Action.Then(i, work)];
      ThenStep(model, i, work);
      hide Attached;
      ghost var before := model;
      var output := new SharedState();
      next := null;
      var execute;
      thrown, execute := AttachTo(future, i, Continuation(work, |states|));
      if thrown.None? {
        Adopt(output, FromThen(i, work));
      }
      Become(Apply(before, Action.Then(i, work)));
      if execute.Some? {
        threads := threads + [Thread(Execute(i, execute.value), ThenCall(i, |states| - 1))];
      } else if thrown.None? {
        next := future.FinishThen(output);
      }
    }

    /** `future` is the object that the `then` call of the thread, if there is one, was made on. */
    ghost predicate CalledOn(t: nat, future: Future?)
      reads this, future
    {
      t < |threads| && threads[t].frame.ThenCall? ==>
        && threads[t].frame.future < |states| && threads[t].frame.result < |states|
        && future != null && future.sharedState == states[threads[t].frame.future]
    }

    /** The end of a call: `then` gives up the future it was called on for the one of its output. */
    method Finish(t: nat, future: Future?) returns (next: Future?)
      requires t < |threads| && CalledOn(t, future)
      modifies `threads, future
      ensures threads == old(threads)[t := Thread(Idle, NoFrame)]
      ensures next != null <==> old(threads)[t].frame.ThenCall?
      ensures if next == null then future != null ==> future.sharedState == old(future.sharedState)
              else fresh(next) && !future.IsValid() && next.sharedState == states[old(threads)[t].frame.result]
    {
      next := null;
      if threads[t].frame.ThenCall? {
        next := future.FinishThen(states[threads[t].frame.result]);
      }
      threads := threads[t := Thread(Idle, NoFrame)];
    }

    /** The functor gets a future of shared state `i`, and calls `get()` or keeps it. */
    method HandToFunctor(i: Id, callsGet: bool) returns (outcome: Outcome, kept: Future?)
      requires Matches() && model.IsReady(i)
      ensures outcome == model.OutcomeOf(i)
      ensures kept == null <==> callsGet
      ensures kept != null ==> fresh(kept) && kept.sharedState == states[i]
    {
      var argument := new Future(states[i]);
      outcome := states[i].Get();
      if callsGet {
        var _, _ := argument.Get();
        return outcome, null;
      }
      return outcome, argument;
    }

    /** Executes a continuation: calls its functor, and goes on as the functor replies. */
    method ExecuteTask(t: nat) returns (kept: Future?)
      requires Valid() && CanResume(model, t) && threads[t].task.Execute?
      modifies this
      ensures Valid() && states == old(states) && model == Apply(old(model), Resume(t))
      ensures history == old(history) + [Resume(t)]
      ensures kept == null <==> CallsGet(old(threads)[t].task.continuation.work)
      ensures kept != null ==> fresh(kept) && kept.sharedState == states[old(threads)[t].task.input]
    {
      hide IsHistory, HandOver, ReplyOf, Resumed, SharedState.Abstract, SharedState.Valid;
      HistoryGrows(history, model, Resume(t));
      history := history + [Resume(t)];
      ExecuteStep(model, t);
      var Execute(i, c) := threads[t].task;
      var outcome;
      outcome, kept := HandToFunctor(i, CallsGet(c.work));
      Become(Apply(model, Resume(t)));
      threads := threads[t := GoesOn(threads[t], ReplyOf(c.work, outcome), c.output)];
    }

    /** `set_value` or `set_exception` on shared state `o`. */
    method SetAt(o: Id, r: Outcome) returns (thrown: Option<FutureErrc>, execute: Option<Continuation>)
      requires Matches() && o < |states|
      modifies states[o], `model
      ensures Matches()
      ensures match SetOutcome(old(model).nodes[o].cell, r)
              case Fails(code) => thrown == Some(code) && execute == None && model == old(model)
              case Done(cell, run) => thrown == None && execute == run && model == WithCell(old(model), o, cell)
    {
      match r {
        case Value(payload) => thrown, execute := states[o].SetValue(payload);
        case Raised(exception) => thrown, execute := states[o].SetException(exception);
      }
      if thrown.None? {
        model := WithCell(model, o, states[o].Abstract());
      }
    }

    /** `set_continuation` on shared state `i`. */
    method AttachAt(i: Id, c: Continuation) returns (thrown: Option<FutureErrc>, execute: Option<Continuation>)
      requires Matches() && i < |states|
      modifies states[i], `model
      ensures Matches()
      ensures match SetContinuation(old(model).nodes[i].cell, c)
              case Fails(code) => thrown == Some(code) && execute == None && model == old(model)
              case Done(cell, run) => thrown == None && execute == run && model == WithCell(old(model), i, cell)
    {
      thrown, execute := states[i].StoreOrExecute(c);
      if thrown.None? {
        model := WithCell(model, i, states[i].Abstract());
      }
    }

    /** Satisfies the output of a continuation; `next` is what a `then` call returns that this ends. */
    method DeliverTask(t: nat, future: Future?) returns (next: Future?)
      requires Valid() && CanResume(model, t) && threads[t].task.Deliver? && CalledOn(t, future)
      modifies this, states, future
      ensures Valid() && states == old(states) && model == Apply(old(model), Resume(t))
      ensures history == old(history) + [Resume(t)]
      ensures next != null <==>
                old(threads)[t].frame.ThenCall? && threads[t].frame.NoFrame? && model.unwound == old(model).unwound
      ensures if next == null then future != null ==> future.sharedState == old(future.sharedState)
              else fresh(next) && !future.IsValid() && next.sharedState == states[old(threads)[t].frame.result]
    {
      hide IsHistory;
      HistoryGrows(history, model, Resume(t));
      history := history + [Resume(t)];
      ghost var before := model;
      var Deliver(o, r) := threads[t].task;
      next := null;
      var thrown, execute := SetAt(o, r);
      if thrown.Some? {
        threads := threads[t := Thread(Idle, NoFrame)];
      } else if execute.Some? {
        threads := threads[t := threads[t].(task := Execute(o, execute.value))];
      } else {
        next := Finish(t, future);
      }
      Become(Apply(before, Resume(t)));
    }

    /** Attaches the forwarding continuation to the future that a functor returned. */
    method AttachTask(t: nat, future: Future?) returns (next: Future?)
      requires Valid() && CanResume(model, t) && threads[t].task.Attach? && CalledOn(t, future)
      modifies this, states, future
      ensures Valid() && states == old(states) && model == Apply(old(model), Resume(t))
      ensures history == old(history) + [Resume(t)]
      ensures next != null <==>
                old(threads)[t].frame.ThenCall? && threads[t].frame.NoFrame? && model.unwound == old(model).unwound
      ensures if next == null then future != null ==> future.sharedState == old(future.sharedState)
              else fresh(next) && !future.IsValid() && next.sharedState == states[old(threads)[t].frame.result]
    {
      hide IsHistory;
      HistoryGrows(history, model, Resume(t));
      history := history + [Resume(t)];
      ghost var before := model;
      var Attach(i, c) := threads[t].task;
      next := null;
      var thrown, execute := AttachAt(i, c);
      if thrown.Some? {
        threads := threads[t := Thread(Idle, NoFrame)];
      } else if execute.Some? {
        threads := threads[t := threads[t].(task := Execute(i, execute.value))];
      } else {
        next := Finish(t, future);
      }
      Become(Apply(before, Resume(t)));
    }
  }
}
