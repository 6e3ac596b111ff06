/**
 Any number of promises, futures, continuations and threads. Every step is one critical
 section, or the call of one functor, of some thread; a run is any sequence of steps.
 */
module FutureSystems {
  import opened Options
  import opened SharedStates

  /** Where a shared state comes from: a promise, or a `then` on another shared state. */
  datatype Origin = FromPromise | FromThen(input: Id, work: Work)

  /** A shared state, with its history: its origin, and whether `abandon` satisfied it. */
  datatype Node = Node(cell: Cell, origin: Origin, abandoned: bool)

  /**
   What a thread inside the library has yet to do: execute a continuation, satisfy the
   output of one, or attach the forwarding continuation to the future a functor returned.
   */
  datatype Task =
    | Idle
    | Execute(input: Id, continuation: Continuation)
    | Deliver(output: Id, outcome: Outcome)
    | Attach(inner: Id, continuation: Continuation)

  /** `then` invalidates its future and returns the new one only after what it executes has returned. */
  datatype Frame = NoFrame | ThenCall(future: Id, result: Id)

  datatype Thread = Thread(task: Task, frame: Frame)

  /**
   `handles` counts the valid future objects of each shared state that are free for use,
   `dropped` those that were destroyed, `wasted` those that an exception has cost, `gets`
   the completed calls of `get()`, `runs` the calls of the functor that was to
   satisfy a shared state, `lost` holds the outputs whose continuation ended with an
   escaping `future_error`. For the calls of `then` that such an error left, `unwound` counts
   the futures they were called on, and `thrown` holds the outputs they did not return.
   */
  datatype System = System(
    nodes: seq<Node>, promises: set<Id>, handles: multiset<Id>, threads: seq<Thread>,
    gets: multiset<Id>, runs: multiset<Id>, lost: set<Id>, unwound: multiset<Id>, thrown: set<Id>,
    dropped: multiset<Id>, wasted: multiset<Id>)
  {
    predicate IsReady(i: Id) {
      i < |nodes| && nodes[i].cell.state.Ready?
    }

    function OutcomeOf(i: Id): Outcome
      requires IsReady(i)
    {
      nodes[i].cell.state.outcome
    }
  }

  const EMPTY_SYSTEM :=
    System([], {}, multiset{}, [], multiset{}, multiset{}, {}, multiset{}, {}, multiset{}, multiset{})

  datatype Action =
    | NewPromise
    | GetFuture(id: Id)
    | Satisfy(id: Id, outcome: Outcome)
    | DestroyPromise(id: Id)
    | Get(id: Id)
    | Drop(id: Id)
    | Then(id: Id, work: Work)
    | Resume(thread: nat)

  predicate IsFutureError(outcome: Outcome) {
    outcome.Raised? && outcome.exception.FutureError?
  }

  /** How executing a continuation goes on: it satisfies the output, waits for a future, or throws. */
  datatype Reply = Delivers(outcome: Outcome) | Awaits(inner: Id) | Escapes

  function ReplyOf(work: Work, input: Outcome): Reply {
    match work
    case Plain(_, functor) => if IsFutureError(functor(input)) then Escapes else Delivers(functor(input))
    case Forward => if IsFutureError(input) then Escapes else Delivers(input)
    case Unwrap(_, functor) =>
      match functor(input)
      case Throws(e) => Delivers(Raised(e))
      case InvalidFuture => Delivers(Raised(FutureError(BrokenPromise)))
      case ValidFuture(id) => Awaits(id)
  }

  predicate CallsGet(work: Work) {
    work.Forward? || work.callsGet
  }

  // ----- steps

  function WithCell(s: System, i: Id, cell: Cell): System
    requires i < |s.nodes|
  {
    s.(nodes := s.nodes[i := s.nodes[i].(cell := cell)])
  }

  function WithTask(s: System, t: nat, task: Task): System
    requires t < |s.threads|
  {
    s.(threads := s.threads[t := s.threads[t].(task := task)])
  }

  function ResultOf(frame: Frame): multiset<Id> {
    if frame.ThenCall? then multiset{frame.result} else multiset{}
  }

  /** The thread comes back to its caller; a `then` call returns its future. */
  function Return(s: System, t: nat): System
    requires t < |s.threads|
  {
    s.(threads := s.threads[t := Thread(Idle, NoFrame)], handles := s.handles + ResultOf(s.threads[t].frame))
  }

  function FutureOf(frame: Frame): multiset<Id> {
    if frame.ThenCall? then multiset{frame.future} else multiset{}
  }

  function ThrownBy(frame: Frame): set<Id> {
    if frame.ThenCall? then {frame.result} else {}
  }

  /** A `future_error` leaves the thread; a `then` call leaves its future valid and returns none. */
  function Unwind(s: System, t: nat): System
    requires t < |s.threads|
  {
    var future := FutureOf(s.threads[t].frame);
    s.(threads := s.threads[t := Thread(Idle, NoFrame)],
       handles := s.handles + future, unwound := s.unwound + future,
       thrown := s.thrown + ThrownBy(s.threads[t].frame), wasted := s.wasted + ResultOf(s.threads[t].frame))
  }

  /** The functor receives a future; it consumes it by calling `get()`, or keeps it. */
  function HandOver(s: System, i: Id, c: Continuation): System {
    var s := s.(runs := if c.work.Forward? then s.runs else s.runs + multiset{c.output});
    if CallsGet(c.work) then s.(gets := s.gets + multiset{i}) else s.(handles := s.handles + multiset{i})
  }

  predicate CanResume(s: System, t: nat) {
    t < |s.threads| &&
    match s.threads[t].task
    case Idle => false
    case Execute(i, c) =>
      && s.IsReady(i)
      && (ReplyOf(c.work, s.OutcomeOf(i)).Awaits? ==>
            ReplyOf(c.work, s.OutcomeOf(i)).inner in HandOver(s, i, c).handles)
    case Deliver(o, _) => o < |s.nodes|
    case Attach(i, _) => i < |s.nodes|
  }

  function Resumed(s: System, t: nat): System
    requires CanResume(s, t)
  {
    match s.threads[t].task
    case Execute(i, c) =>
      var s1 := HandOver(s, i, c);
      (match ReplyOf(c.work, s.OutcomeOf(i))
       case Delivers(r) => WithTask(s1, t, Deliver(c.output, r))
       case Awaits(k) =>
         WithTask(s1.(handles := s1.handles - multiset{k}), t, Attach(k, Continuation(Forward, c.output)))
       case Escapes => Unwind(s1.(lost := s1.lost + {c.output}), t))
    case Deliver(o, r) =>
      (match SetOutcome(s.nodes[o].cell, r)
       case Fails(_) => Unwind(s, t)
       case Done(cell, None) => Return(WithCell(s, o, cell), t)
       case Done(cell, Some(c)) => WithTask(WithCell(s, o, cell), t, Execute(o, c)))
    case Attach(i, c) =>
      (match SetContinuation(s.nodes[i].cell, c)
       case Fails(_) => Unwind(s.(lost := s.lost + {c.output}, wasted := s.wasted + multiset{i}), t)
       case Done(cell, None) => Return(WithCell(s, i, cell), t)
       case Done(cell, Some(k)) => WithTask(WithCell(s, i, cell), t, Execute(i, k)))
  }

  /** `then` on a valid future: the output is allocated, and the continuation stored or executed. */
  function Attached(s: System, i: Id, work: Work): System
    requires i < |s.nodes|
  {
    var o := |s.nodes|;
    var s1 := s.(nodes := s.nodes + [Node(NEW_CELL, FromThen(i, work), false)], handles := s.handles - multiset{i});
    match SetContinuation(s.nodes[i].cell, Continuation(work, o))
    case Fails(_) => s
    case Done(cell, None) => WithCell(s1, i, cell).(handles := s1.handles + multiset{o})
    case Done(cell, Some(k)) => s1.(threads := s1.threads + [Thread(Execute(i, k), ThenCall(i, o))])
  }

  predicate Enabled(s: System, a: Action) {
    match a
    case NewPromise => true
    case GetFuture(i) => i in s.promises && i < |s.nodes|
    case Satisfy(i, _) => i in s.promises && i < |s.nodes|
    case DestroyPromise(i) => i in s.promises && i < |s.nodes|
    case Get(i) => i in s.handles && s.IsReady(i)
    case Drop(i) => i in s.handles
    case Then(i, work) => i in s.handles && i < |s.nodes| && !work.Forward?
    case Resume(t) => CanResume(s, t)
  }

  function Apply(s: System, a: Action): System
    requires Enabled(s, a)
  {
    match a
    case NewPromise =>
      s.(nodes := s.nodes + [Node(NEW_CELL, FromPromise, false)], promises := s.promises + {|s.nodes|})
    case GetFuture(i) =>
      (match MarkRetrieved(s.nodes[i].cell)
       case Fails(_) => s
       case Done(cell, _) => WithCell(s, i, cell).(handles := s.handles + multiset{i}))
    case Satisfy(i, outcome) =>
      (match SetOutcome(s.nodes[i].cell, outcome)
       case Fails(_) => s
       case Done(cell, None) => WithCell(s, i, cell)
       case Done(cell, Some(k)) =>
         WithCell(s, i, cell).(threads := s.threads + [Thread(Execute(i, k), NoFrame)]))
    case DestroyPromise(i) =>
      var node := s.nodes[i];
      s.(promises := s.promises - {i},
         nodes := s.nodes[i := node.(cell := Abandon(node.cell),
                                     abandoned := node.abandoned || node.cell.state.NotReady?)])
    case Get(i) => s.(handles := s.handles - multiset{i}, gets := s.gets + multiset{i})
    case Drop(i) => s.(handles := s.handles - multiset{i}, dropped := s.dropped + multiset{i})
    case Then(i, work) => Attached(s, i, work)
    case Resume(t) => Resumed(s, t)
  }

  ghost predicate Possible(s: System, actions: seq<Action>)
    decreases |actions|
  {
    actions == [] || (Enabled(s, actions[0]) && Possible(Apply(s, actions[0]), actions[1..]))
  }

  ghost function After(s: System, actions: seq<Action>): System
    requires Possible(s, actions)
    decreases |actions|
  {
    if actions == [] then s else After(Apply(s, actions[0]), actions[1..])
  }

  lemma {:induction false} HandOverKeeps(s: System, i: Id, c: Continuation)
    ensures var s1 := HandOver(s, i, c);
            && s1.nodes == s.nodes && s1.promises == s.promises && s1.threads == s.threads
            && s1.lost == s.lost && s1.unwound == s.unwound && s1.thrown == s.thrown
            && s1.dropped == s.dropped && s1.wasted == s.wasted
            && s1.runs == (if c.work.Forward? then s.runs else s.runs + multiset{c.output})
            && s1.gets == (if CallsGet(c.work) then s.gets + multiset{i} else s.gets)
  {
  }

  /** What executing a continuation changes. */
  lemma {:induction false} ExecuteStep(s: System, t: nat)
    requires CanResume(s, t) && s.threads[t].task.Execute?
    ensures var s' := Resumed(s, t); var Execute(i, c) := s.threads[t].task;
            && s'.nodes == s.nodes && s'.promises == s.promises
            && s'.threads == s.threads[t := s'.threads[t]]
            && s'.runs == (if c.work.Forward? then s.runs else s.runs + multiset{c.output})
            && s'.gets == (if CallsGet(c.work) then s.gets + multiset{i} else s.gets) && s'.dropped == s.dropped
            && match ReplyOf(c.work, s.OutcomeOf(i))
               case Delivers(r) =>
                 && s'.threads[t] == Thread(Deliver(c.output, r), s.threads[t].frame)
                 && s'.lost == s.lost && s'.unwound == s.unwound && s'.thrown == s.thrown
                 && s'.wasted == s.wasted
               case Awaits(k) =>
                 && s'.threads[t] == Thread(Attach(k, Continuation(Forward, c.output)), s.threads[t].frame)
                 && s'.lost == s.lost && s'.unwound == s.unwound && s'.thrown == s.thrown
                 && s'.wasted == s.wasted
               case Escapes =>
                 && s'.threads[t] == Thread(Idle, NoFrame)
                 && s'.lost == s.lost + {c.output} && s'.unwound == s.unwound + FutureOf(s.threads[t].frame)
                 && s'.thrown == s.thrown + ThrownBy(s.threads[t].frame)
                 && s'.wasted == s.wasted + ResultOf(s.threads[t].frame)
  {
    var Execute(i, c) := s.threads[t].task;
    HandOverKeeps(s, i, c);
    hide HandOver;
    match ReplyOf(c.work, s.OutcomeOf(i))
    case Delivers(_) =>
    case Awaits(_) =>
    case Escapes =>
  }

  /** What satisfying an output changes. */
  lemma {:induction false} DeliverStep(s: System, t: nat)
    requires CanResume(s, t) && s.threads[t].task.Deliver?
    requires s.nodes[s.threads[t].task.output].cell.state.NotReady?
    ensures var s' := Resumed(s, t); var Deliver(o, r) := s.threads[t].task;
            && s'.nodes == s.nodes[o := s.nodes[o].(cell := s.nodes[o].cell.(state := Ready(r)))]
            && s'.threads == s.threads[t := s'.threads[t]]
            && s'.runs == s.runs && s'.lost == s.lost && s'.gets == s.gets
            && s'.unwound == s.unwound && s'.thrown == s.thrown && s'.dropped == s.dropped && s'.wasted == s.wasted
            && match s.nodes[o].cell.continuation
               case None =>
                 && s'.threads[t] == Thread(Idle, NoFrame)
                 && s'.handles == s.handles + ResultOf(s.threads[t].frame)
               case Some(c) =>
                 && s'.threads[t] == Thread(Execute(o, c), s.threads[t].frame)
                 && s'.handles == s.handles
  {
  }

  /** What attaching to the returned future changes. */
  lemma {:induction false} AttachStep(s: System, t: nat)
    requires CanResume(s, t) && s.threads[t].task.Attach?
    ensures var s' := Resumed(s, t);
            var Thread(Attach(i, c), frame) := s.threads[t];
            && s'.threads == s.threads[t := s'.threads[t]] && s'.promises == s.promises
            && s'.gets == s.gets && s'.runs == s.runs && s'.dropped == s.dropped
            && if s.nodes[i].cell.continuation.Some? then
                 && s'.nodes == s.nodes && s'.threads[t] == Thread(Idle, NoFrame)
                 && s'.handles == s.handles + FutureOf(frame)
                 && s'.lost == s.lost + {c.output} && s'.unwound == s.unwound + FutureOf(frame)
                 && s'.thrown == s.thrown + ThrownBy(frame)
                 && s'.wasted == s.wasted + multiset{i} + ResultOf(frame)
               else if s.nodes[i].cell.state.Ready? then
                 && s'.nodes == s.nodes && s'.threads[t] == Thread(Execute(i, c), frame)
                 && s'.handles == s.handles && s'.lost == s.lost
                 && s'.unwound == s.unwound && s'.thrown == s.thrown && s'.wasted == s.wasted
               else
                 && s'.nodes == s.nodes[i := s.nodes[i].(cell := s.nodes[i].cell.(continuation := Some(c)))]
                 && s'.threads[t] == Thread(Idle, NoFrame) && s'.handles == s.handles + ResultOf(frame)
                 && s'.lost == s.lost && s'.unwound == s.unwound && s'.thrown == s.thrown
                 && s'.wasted == s.wasted
  {
  }

  lemma {:induction false} ExecuteHandles(s: System, t: nat, k: Id)
    requires CanResume(s, t) && s.threads[t].task.Execute?
    requires k in Resumed(s, t).handles
    ensures var Thread(task, frame) := s.threads[t];
            k in s.handles || k == task.input || (frame.ThenCall? && k == frame.future)
  {
  }

  // ----- what never changes back

  /**
   Outcomes, stored continuations and origins stay as they are, and satisfied states
   store no continuation. What has been retrieved, lost, unwound or thrown stays so.
   */
  ghost predicate Extends(s: System, s': System) {
    && |s.nodes| <= |s'.nodes|
    && s.gets <= s'.gets && s.lost <= s'.lost && s.unwound <= s'.unwound && s.thrown <= s'.thrown
    && forall i :: 0 <= i < |s.nodes| ==>
         && s'.nodes[i].origin == s.nodes[i].origin
         && (s.nodes[i].cell.state.Ready? ==> s'.nodes[i].cell.state == s.nodes[i].cell.state)
         && (s.nodes[i].cell.continuation.Some? || s.nodes[i].cell.state.Ready? ==>
               s'.nodes[i].cell.continuation == s.nodes[i].cell.continuation)
         && (s.nodes[i].cell.retrieved ==> s'.nodes[i].cell.retrieved)
         && (s.nodes[i].abandoned ==> s'.nodes[i].abandoned)
  }

  lemma {:induction false} DeliverExtends(s: System, t: nat)
    requires CanResume(s, t) && s.threads[t].task.Deliver?
    ensures Extends(s, Resumed(s, t))
  {
  }

  lemma {:induction false} AttachExtends(s: System, t: nat)
    requires CanResume(s, t) && s.threads[t].task.Attach?
    ensures Extends(s, Resumed(s, t))
  {
  }

  lemma {:induction false} ResumeExtends(s: System, t: nat)
    requires CanResume(s, t)
    ensures Extends(s, Resumed(s, t))
  {
    match s.threads[t].task
    case Execute(i, c) => ExecuteStep(s, t);
    case Deliver(o, r) => DeliverExtends(s, t);
    case Attach(i, c) => AttachExtends(s, t);
  }

  lemma {:induction false} StepExtends(s: System, a: Action)
    requires Enabled(s, a)
    ensures Extends(s, Apply(s, a))
  {
    match a
    case Resume(t) => ResumeExtends(s, t);
    case Then(i, work) => AttachedExtends(s, i, work);
    case _ =>
  }

  lemma {:induction false} AttachedExtends(s: System, i: Id, work: Work)
    requires i < |s.nodes|
    ensures Extends(s, Attached(s, i, work))
  {
  }

  /** Over every run, a satisfied state keeps its outcome. */
  lemma {:induction false} OutcomesAreFinal(s: System, actions: seq<Action>)
    requires Possible(s, actions)
    ensures Extends(s, After(s, actions))
    decreases |actions|
  {
    if actions != [] {
      StepExtends(s, actions[0]);
      OutcomesAreFinal(Apply(s, actions[0]), actions[1..]);
    }
  }
}
