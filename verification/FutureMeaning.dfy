/**
 Every outcome has an explanation: a shared state made by `then` is satisfied only with
 what its functor made of the input, or with the result of the future it returned.
 */
module FutureMeaning {
  import opened Options
  import opened SharedStates
  import opened FutureSystems

  /** The continuation is the right one to be at shared state `i`. */
  ghost predicate Belongs(s: System, i: Id, c: Continuation) {
    && i < |s.nodes| && c.output < |s.nodes|
    && s.nodes[c.output].origin.FromThen?
    && var FromThen(input, work) := s.nodes[c.output].origin;
       if c.work.Forward? then s.IsReady(input) && ReplyOf(work, s.OutcomeOf(input)) == Awaits(i)
       else i == input && c.work == work
  }

  /** No other continuation has been stored in `i`. */
  ghost predicate FreeFor(s: System, i: Id, c: Continuation)
    requires i < |s.nodes|
  {
    s.nodes[i].cell.continuation.None? || s.nodes[i].cell.continuation.value == c
  }

  /** The functor stored in `i` does not call `get()`: it keeps the future that it is given. */
  ghost predicate Kept(s: System, i: Id)
    requires i < |s.nodes|
  {
    s.nodes[i].cell.continuation.Some? && !CallsGet(s.nodes[i].cell.continuation.value.work)
  }

  /** `r` is what the origin of `o` asks for. */
  ghost predicate Explains(s: System, o: Id, r: Outcome) {
    && o < |s.nodes| && s.nodes[o].origin.FromThen?
    && var FromThen(input, work) := s.nodes[o].origin;
       && s.IsReady(input)
       && match ReplyOf(work, s.OutcomeOf(input))
          case Delivers(x) => r == x
          case Awaits(k) =>
            && s.IsReady(k) && !IsFutureError(s.OutcomeOf(k)) && r == s.OutcomeOf(k)
            && FreeFor(s, k, Continuation(Forward, o))
          case Escapes => false
  }

  /** Why `o` will never be satisfied: a `future_error`, or a returned future that a functor had kept. */
  ghost predicate ExplainsLoss(s: System, o: Id) {
    && o < |s.nodes| && s.nodes[o].origin.FromThen?
    && var FromThen(input, work) := s.nodes[o].origin;
       && s.IsReady(input)
       && match ReplyOf(work, s.OutcomeOf(input))
          case Delivers(_) => false
          case Awaits(k) =>
            || (s.IsReady(k) && IsFutureError(s.OutcomeOf(k)))
            || (k < |s.nodes| && Kept(s, k))
          case Escapes => true
  }

  ghost predicate NodeMakesSense(s: System, i: Id)
    requires i < |s.nodes|
  {
    var Node(cell, origin, abandoned) := s.nodes[i];
    && (cell.continuation.Some? ==> Belongs(s, i, cell.continuation.value))
    && (cell.continuation.Some? && cell.continuation.value.work.Forward? ==>
          s.nodes[cell.continuation.value.output].origin.input != i)
    && (abandoned ==> origin.FromPromise? && cell.state == Ready(Raised(FutureError(BrokenPromise))))
    && (origin.FromThen? ==> origin.input < |s.nodes| && !origin.work.Forward?)
    && (origin.FromThen? && cell.state.Ready? ==> Explains(s, i, cell.state.outcome))
  }

  /** The task is on its way to satisfying `o`. */
  predicate Serves(task: Task, o: Id) {
    match task
    case Idle => false
    case Execute(_, c) => c.output == o
    case Deliver(output, _) => output == o
    case Attach(_, c) => c.output == o
  }

  /** A `then` call in progress found its input satisfied, works for its own output, and calls its functor first. */
  ghost predicate FrameMakesSense(s: System, thread: Thread) {
    thread.frame.ThenCall? ==>
      var ThenCall(i, o) := thread.frame;
      && s.IsReady(i) && s.nodes[i].cell.continuation.None?
      && o < |s.nodes| && s.nodes[o].origin.FromThen? && s.nodes[o].origin.input == i
      && Serves(thread.task, o)
      && (thread.task.Execute? ==>
            s.IsReady(thread.task.input) && s.nodes[thread.task.input].cell.continuation.None?)
      && (|| thread.task == Execute(i, Continuation(s.nodes[o].origin.work, o))
          || (CallsGet(s.nodes[o].origin.work) ==> i in s.gets))
  }

  /** Attaching to the future of `k` throws, or executes a continuation that does. */
  ghost predicate InnerThrows(s: System, k: Id) {
    && k < |s.nodes|
    && (|| Kept(s, k)
        || (s.nodes[k].cell.continuation.None? && s.IsReady(k) && IsFutureError(s.OutcomeOf(k))))
  }

  /** Executing a functor with this reply throws. */
  ghost predicate ReplyThrows(s: System, reply: Reply) {
    match reply
    case Delivers(_) => false
    case Escapes => true
    case Awaits(k) => InnerThrows(s, k)
  }

  /** A `then` call threw: it found its future satisfied, its functor led to an error, and its output is lost. */
  ghost predicate ThrownMakesSense(s: System, o: Id) {
    && o in s.lost && o < |s.nodes| && s.nodes[o].origin.FromThen?
    && var FromThen(i, work) := s.nodes[o].origin;
       && s.IsReady(i) && s.nodes[i].cell.continuation.None?
       && ReplyThrows(s, ReplyOf(work, s.OutcomeOf(i)))
  }

  /** `o` was made by a `then` on `i` that threw. */
  ghost predicate ThrewOn(s: System, i: Id, o: Id) {
    o in s.thrown && o < |s.nodes| && s.nodes[o].origin.FromThen? && s.nodes[o].origin.input == i
  }

  ghost predicate UnwoundMakesSense(s: System, i: Id) {
    s.IsReady(i) && s.nodes[i].cell.continuation.None? && exists o :: ThrewOn(s, i, o)
  }

  /** Only a `then` that throws, or attaching to a kept future, costs a future. */
  ghost predicate WasteMakesSense(s: System, i: Id) {
    i in s.thrown || (i < |s.nodes| && Kept(s, i))
  }

  ghost predicate TaskMakesSense(s: System, task: Task) {
    match task
    case Idle => true
    case Execute(i, c) => s.IsReady(i) && Belongs(s, i, c) && FreeFor(s, i, c)
    case Deliver(o, r) => Explains(s, o, r)
    case Attach(i, c) => c.work.Forward? && Belongs(s, i, c)
  }

  ghost predicate ThreadMakesSense(s: System, thread: Thread) {
    TaskMakesSense(s, thread.task) && FrameMakesSense(s, thread)
  }

  ghost predicate MakesSense(s: System) {
    && (forall i :: 0 <= i < |s.nodes| ==> NodeMakesSense(s, i))
    && (forall t :: 0 <= t < |s.threads| ==> ThreadMakesSense(s, s.threads[t]))
    && (forall o :: o in s.lost ==> ExplainsLoss(s, o))
    && (forall i :: i in s.unwound ==> UnwoundMakesSense(s, i))
    && (forall o :: o in s.thrown ==> ThrownMakesSense(s, o))
    && (forall i :: i in s.wasted ==> WasteMakesSense(s, i))
    && (forall i :: i in s.promises ==> i < |s.nodes| && s.nodes[i].origin.FromPromise?)
    && (forall i :: i in s.handles ==> i < |s.nodes|)
  }

  lemma {:induction false} NodeIsSensible(s: System, i: Id)
    requires MakesSense(s) && i < |s.nodes|
    ensures NodeMakesSense(s, i)
  {
  }

  lemma {:induction false} ThreadIsSensible(s: System, t: nat)
    requires MakesSense(s) && t < |s.threads|
    ensures ThreadMakesSense(s, s.threads[t])
  {
  }

  // ----- explanations stay valid

  lemma {:induction false} BelongsStays(s: System, s': System, i: Id, c: Continuation)
    requires Extends(s, s') && Belongs(s, i, c)
    ensures Belongs(s', i, c)
  {
  }

  lemma {:induction false} ExplainsStays(s: System, s': System, o: Id, r: Outcome)
    requires Extends(s, s') && Explains(s, o, r)
    ensures Explains(s', o, r)
  {
  }

  lemma {:induction false} ExplainsLossStays(s: System, s': System, o: Id)
    requires Extends(s, s') && ExplainsLoss(s, o)
    ensures ExplainsLoss(s', o)
  {
  }

  lemma {:induction false} UnwoundStays(s: System, s': System, i: Id)
    requires Extends(s, s') && UnwoundMakesSense(s, i)
    ensures UnwoundMakesSense(s', i)
  {
    var o :| ThrewOn(s, i, o);
    assert ThrewOn(s', i, o);
  }

  lemma {:induction false} ThrownStays(s: System, s': System, o: Id)
    requires Extends(s, s') && ThrownMakesSense(s, o)
    ensures ThrownMakesSense(s', o)
  {
    hide ReplyOf;
  }

  lemma {:induction false} FrameStays(s: System, s': System, thread: Thread)
    requires Extends(s, s') && FrameMakesSense(s, thread)
    ensures FrameMakesSense(s', thread)
  {
  }

  lemma {:induction false} NodeStays(s: System, s': System, i: Id)
    requires Extends(s, s') && i < |s.nodes| && NodeMakesSense(s, i) && s'.nodes[i] == s.nodes[i]
    ensures NodeMakesSense(s', i)
  {
    var Node(cell, origin, _) := s.nodes[i];
    if cell.continuation.Some? {
      BelongsStays(s, s', i, cell.continuation.value);
    }
    if origin.FromThen? && cell.state.Ready? {
      ExplainsStays(s, s', i, cell.state.outcome);
    }
  }

  lemma {:induction false} ThreadStays(s: System, s': System, thread: Thread)
    requires Extends(s, s') && ThreadMakesSense(s, thread)
    ensures ThreadMakesSense(s', thread)
  {
    FrameStays(s, s', thread);
    match thread.task
    case Execute(i, c) => BelongsStays(s, s', i, c);
    case Deliver(o, r) => ExplainsStays(s, s', o, r);
    case Attach(i, c) => BelongsStays(s, s', i, c);
    case Idle =>
  }

  /** Only the nodes, threads and losses that a step touches need a new explanation. */
  lemma {:induction false} MakesSenseStays(s: System, s': System)
    requires MakesSense(s) && Extends(s, s')
    requires |s.threads| <= |s'.threads|
    requires forall i :: 0 <= i < |s'.nodes| && (i < |s.nodes| ==> s'.nodes[i] != s.nodes[i]) ==> NodeMakesSense(s', i)
    requires forall t :: 0 <= t < |s'.threads| && (t < |s.threads| ==> s'.threads[t] != s.threads[t]) ==>
               ThreadMakesSense(s', s'.threads[t])
    requires forall o :: o in s'.lost && o !in s.lost ==> ExplainsLoss(s', o)
    requires forall i :: i in s'.unwound && i !in s.unwound ==> UnwoundMakesSense(s', i)
    requires forall o :: o in s'.thrown && o !in s.thrown ==> ThrownMakesSense(s', o)
    requires forall i :: i in s'.wasted && i !in s.wasted ==> WasteMakesSense(s', i)
    requires forall i :: i in s'.promises && i !in s.promises ==> i < |s'.nodes| && s'.nodes[i].origin.FromPromise?
    requires forall i :: i in s'.handles && i !in s.handles ==> i < |s'.nodes|
    ensures MakesSense(s')
  {
    forall i | 0 <= i < |s'.nodes| ensures NodeMakesSense(s', i) {
      if i < |s.nodes| && s'.nodes[i] == s.nodes[i] {
        NodeStays(s, s', i);
      }
    }
    forall t | 0 <= t < |s'.threads| ensures ThreadMakesSense(s', s'.threads[t]) {
      if t < |s.threads| && s'.threads[t] == s.threads[t] {
        ThreadStays(s, s', s.threads[t]);
      }
    }
    forall o | o in s'.lost ensures ExplainsLoss(s', o) {
      if o in s.lost {
        ExplainsLossStays(s, s', o);
      }
    }
    forall i | i in s'.unwound ensures UnwoundMakesSense(s', i) {
      if i in s.unwound {
        UnwoundStays(s, s', i);
      }
    }
    forall o | o in s'.thrown ensures ThrownMakesSense(s', o) {
      if o in s.thrown {
        ThrownStays(s, s', o);
      }
    }
  }

  // ----- every step keeps it

  lemma {:induction false} SatisfyMakesSense(s: System, i: Id, outcome: Outcome)
    requires MakesSense(s) && Enabled(s, Satisfy(i, outcome))
    ensures MakesSense(Apply(s, Satisfy(i, outcome)))
  {
    var s' := Apply(s, Satisfy(i, outcome));
    StepExtends(s, Satisfy(i, outcome));
    assert NodeMakesSense(s, i);
    if s.nodes[i].cell.continuation.Some? {
      BelongsStays(s, s', i, s.nodes[i].cell.continuation.value);
    }
    MakesSenseStays(s, s');
  }

  lemma {:induction false} PromiseStepMakesSense(s: System, a: Action)
    requires MakesSense(s) && Enabled(s, a)
    requires !a.Then? && !a.Resume?
    ensures MakesSense(Apply(s, a))
  {
    hide ThreadMakesSense, ExplainsLoss, UnwoundMakesSense, ThrownMakesSense, Explains, Belongs;
    var s' := Apply(s, a);
    if a.Satisfy? {
      SatisfyMakesSense(s, a.id, a.outcome);
    } else {
      StepExtends(s, a);
      if a.GetFuture? || a.DestroyPromise? {
        assert NodeMakesSense(s, a.id);
        if s.nodes[a.id].cell.continuation.Some? {
          BelongsStays(s, s', a.id, s.nodes[a.id].cell.continuation.value);
        }
      }
      MakesSenseStays(s, s');
    }
  }

  lemma {:induction false} ThenMakesSense(s: System, i: Id, work: Work)
    requires MakesSense(s) && Enabled(s, Then(i, work))
    ensures MakesSense(Attached(s, i, work))
  {
    hide ExplainsLoss, UnwoundMakesSense, ThrownMakesSense, ReplyOf;
    var s' := Attached(s, i, work);
    AttachedExtends(s, i, work);
    assert NodeMakesSense(s, i);
    if s' != s {
      var c := Continuation(work, |s.nodes|);
      assert Belongs(s', i, c);
      if s.nodes[i].origin.FromThen? && s.nodes[i].cell.state.Ready? {
        ExplainsStays(s, s', i, s.nodes[i].cell.state.outcome);
      }
      MakesSenseStays(s, s');
    }
  }

  lemma {:induction false} ExecuteTaskMakesSense(s: System, t: nat)
    requires MakesSense(s) && CanResume(s, t) && s.threads[t].task.Execute?
    ensures TaskMakesSense(Resumed(s, t), Resumed(s, t).threads[t].task)
  {
    hide Resumed, FrameMakesSense, ExplainsLoss, UnwoundMakesSense, ThrownMakesSense;
    ExecuteStep(s, t);
    var s' := Resumed(s, t);
    var Execute(i, c) := s.threads[t].task;
    assert ThreadMakesSense(s, s.threads[t]) && NodeMakesSense(s, c.output);
    match ReplyOf(c.work, s.OutcomeOf(i))
    case Delivers(r) => assert Explains(s', c.output, r);
    case Awaits(k) => assert Belongs(s', k, Continuation(Forward, c.output));
    case Escapes =>
  }

  lemma {:induction false} ExecuteFrameMakesSense(s: System, t: nat)
    requires MakesSense(s) && CanResume(s, t) && s.threads[t].task.Execute?
    ensures FrameMakesSense(Resumed(s, t), Resumed(s, t).threads[t])
  {
    hide Resumed, MakesSense, TaskMakesSense, ReplyOf;
    ExecuteStep(s, t);
    ThreadIsSensible(s, t);
  }

  lemma {:induction false} ExecuteLossMakesSense(s: System, t: nat)
    requires MakesSense(s) && CanResume(s, t) && s.threads[t].task.Execute?
    requires ReplyOf(s.threads[t].task.continuation.work, s.OutcomeOf(s.threads[t].task.input)).Escapes?
    ensures ExplainsLoss(Resumed(s, t), s.threads[t].task.continuation.output)
    ensures s.threads[t].frame.ThenCall? ==>
              && UnwoundMakesSense(Resumed(s, t), s.threads[t].frame.future)
              && ThrownMakesSense(Resumed(s, t), s.threads[t].frame.result)
  {
    hide Resumed;
    ExecuteStep(s, t);
    var s' := Resumed(s, t);
    var c := s.threads[t].task.continuation;
    assert ThreadMakesSense(s, s.threads[t]) && NodeMakesSense(s, c.output);
    if s.threads[t].frame.ThenCall? {
      assert ThrewOn(s', s.threads[t].frame.future, c.output);
    }
  }

  lemma {:induction false} ExecuteHandlesAreInside(s: System, t: nat)
    requires MakesSense(s) && CanResume(s, t) && s.threads[t].task.Execute?
    ensures forall k :: k in Resumed(s, t).handles ==> k < |s.nodes|
  {
    hide Resumed, ThreadMakesSense, NodeMakesSense;
    forall k | k in Resumed(s, t).handles ensures k < |s.nodes| {
      ExecuteHandles(s, t, k);
      ThreadIsInside(s, s.threads[t]);
    }
  }

  lemma {:induction false} GoesOnStep(s: System, t: nat)
    requires CanResume(s, t) && s.threads[t].task.Execute?
    requires !ReplyOf(s.threads[t].task.continuation.work, s.OutcomeOf(s.threads[t].task.input)).Escapes?
    ensures var s' := Resumed(s, t);
            && s'.nodes == s.nodes && s'.promises == s.promises
            && s'.threads == s.threads[t := s'.threads[t]] && s'.lost == s.lost
            && s'.unwound == s.unwound && s'.thrown == s.thrown && s'.wasted == s.wasted
  {
    hide Resumed, ReplyOf;
    ExecuteStep(s, t);
  }

  lemma {:induction false} ExecuteGoesOnMakesSense(s: System, t: nat)
    requires MakesSense(s) && CanResume(s, t) && s.threads[t].task.Execute?
    requires !ReplyOf(s.threads[t].task.continuation.work, s.OutcomeOf(s.threads[t].task.input)).Escapes?
    ensures MakesSense(Resumed(s, t))
  {
    hide Resumed, ReplyOf, NodeMakesSense, TaskMakesSense, FrameMakesSense, ExplainsLoss, UnwoundMakesSense,
      ThrownMakesSense, WasteMakesSense;
    GoesOnStep(s, t);
    ResumeExtends(s, t);
    ExecuteTaskMakesSense(s, t);
    ExecuteFrameMakesSense(s, t);
    ExecuteHandlesAreInside(s, t);
    MakesSenseStays(s, Resumed(s, t));
  }

  lemma {:induction false} EscapeStep(s: System, t: nat)
    requires CanResume(s, t) && s.threads[t].task.Execute?
    requires ReplyOf(s.threads[t].task.continuation.work, s.OutcomeOf(s.threads[t].task.input)).Escapes?
    ensures var s' := Resumed(s, t);
            var Thread(Execute(_, c), frame) := s.threads[t];
            && s'.nodes == s.nodes && s'.promises == s.promises
            && s'.threads == s.threads[t := Thread(Idle, NoFrame)] && s'.lost == s.lost + {c.output}
            && s'.unwound == s.unwound + FutureOf(frame) && s'.thrown == s.thrown + ThrownBy(frame)
            && s'.wasted == s.wasted + ResultOf(frame)
  {
    hide Resumed, ReplyOf;
    ExecuteStep(s, t);
  }

  lemma {:induction false} ExecuteEscapesMakesSense(s: System, t: nat)
    requires MakesSense(s) && CanResume(s, t) && s.threads[t].task.Execute?
    requires ReplyOf(s.threads[t].task.continuation.work, s.OutcomeOf(s.threads[t].task.input)).Escapes?
    ensures MakesSense(Resumed(s, t))
  {
    hide Resumed, ReplyOf, NodeMakesSense, ThreadMakesSense, ExplainsLoss, UnwoundMakesSense, ThrownMakesSense;
    EscapeStep(s, t);
    ResumeExtends(s, t);
    ExecuteLossMakesSense(s, t);
    ExecuteHandlesAreInside(s, t);
    var s' := Resumed(s, t);
    IdleMakesSense(s');
    MakesSenseStays(s, s');
  }

  lemma {:induction false} IdleMakesSense(s: System)
    ensures ThreadMakesSense(s, Thread(Idle, NoFrame))
  {
  }

  lemma {:induction false} ExecuteMakesSense(s: System, t: nat)
    requires MakesSense(s) && CanResume(s, t) && s.threads[t].task.Execute?
    ensures MakesSense(Resumed(s, t))
  {
    hide MakesSense, Resumed;
    if ReplyOf(s.threads[t].task.continuation.work, s.OutcomeOf(s.threads[t].task.input)).Escapes? {
      ExecuteEscapesMakesSense(s, t);
    } else {
      ExecuteGoesOnMakesSense(s, t);
    }
  }

  lemma {:induction false} ThreadIsInside(s: System, thread: Thread)
    requires ThreadMakesSense(s, thread)
    ensures thread.task.Execute? ==> thread.task.input < |s.nodes|
    ensures thread.frame.ThenCall? ==> thread.frame.future < |s.nodes| && thread.frame.result < |s.nodes|
  {
  }

  lemma {:induction false} DeliverMakesSense(s: System, t: nat)
    requires MakesSense(s) && CanResume(s, t) && s.threads[t].task.Deliver?
    requires s.nodes[s.threads[t].task.output].cell.state.NotReady?
    requires s.threads[t].frame.ThenCall? ==> s.nodes[s.threads[t].task.output].cell.continuation.None?
    ensures MakesSense(Resumed(s, t))
  {
    hide ExplainsLoss, UnwoundMakesSense, ThrownMakesSense, ReplyOf;
    var s' := Resumed(s, t);
    ResumeExtends(s, t);
    var Deliver(o, r) := s.threads[t].task;
    assert ThreadMakesSense(s, s.threads[t]);
    assert NodeMakesSense(s, o);
    ExplainsStays(s, s', o, r);
    if s.nodes[o].cell.continuation.Some? {
      BelongsStays(s, s', o, s.nodes[o].cell.continuation.value);
    }
    MakesSenseStays(s, s');
  }

  lemma {:induction false} AttachMakesSense(s: System, t: nat)
    requires MakesSense(s) && CanResume(s, t) && s.threads[t].task.Attach?
    requires s.nodes[s.threads[t].task.inner].cell.continuation.Some? ==> Kept(s, s.threads[t].task.inner)
    ensures MakesSense(Resumed(s, t))
  {
    hide ExplainsLoss, UnwoundMakesSense, ThrownMakesSense, ReplyOf;
    var s' := Resumed(s, t);
    ResumeExtends(s, t);
    var Attach(i, c) := s.threads[t].task;
    assert ThreadMakesSense(s, s.threads[t]);
    if s.nodes[i].cell.continuation.Some? {
      AttachLossMakesSense(s, t);
    } else {
      assert NodeMakesSense(s, i);
      BelongsStays(s, s', i, c);
      if s.nodes[i].origin.FromThen? && s.nodes[i].cell.state.Ready? {
        ExplainsStays(s, s', i, s.nodes[i].cell.state.outcome);
      }
      MakesSenseStays(s, s');
    }
  }

  lemma {:induction false} AttachLossIsExplained(s: System, t: nat)
    requires MakesSense(s) && CanResume(s, t) && s.threads[t].task.Attach? && Kept(s, s.threads[t].task.inner)
    ensures var s' := Resumed(s, t);
            var Thread(Attach(i, c), frame) := s.threads[t];
            && ExplainsLoss(s', c.output) && WasteMakesSense(s', i)
            && (frame.ThenCall? ==>
                  frame.result == c.output && UnwoundMakesSense(s', frame.future) && ThrownMakesSense(s', c.output))
  {
    hide MakesSense, Resumed;
    AttachStep(s, t);
    ThreadIsSensible(s, t);
    var Thread(Attach(i, c), frame) := s.threads[t];
    if frame.ThenCall? {
      assert ThrewOn(Resumed(s, t), frame.future, c.output);
    }
  }

  lemma {:induction false} AttachLossMakesSense(s: System, t: nat)
    requires MakesSense(s) && CanResume(s, t) && s.threads[t].task.Attach? && Kept(s, s.threads[t].task.inner)
    ensures MakesSense(Resumed(s, t))
  {
    AttachStep(s, t);
    ResumeExtends(s, t);
    AttachLossIsExplained(s, t);
    ThreadIsInside(s, s.threads[t]);
    hide Resumed, TaskMakesSense, NodeMakesSense, ExplainsLoss, UnwoundMakesSense, ThrownMakesSense;
    MakesSenseStays(s, Resumed(s, t));
  }
}
