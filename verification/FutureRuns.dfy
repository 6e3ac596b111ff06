/** Runs in which futures do not behave as documented, each from the start of the program. */
module FutureRuns {
  import opened Options
  import opened SharedStates
  import opened FutureSystems
  import opened FutureMeaning
  import opened FutureTheorems

  ghost predicate StepsTo(s: System, a: Action, s': System) {
    Enabled(s, a) && Apply(s, a) == s'
  }

  lemma {:induction false} TraceIsRun(states: seq<System>, actions: seq<Action>)
    requires |states| == |actions| + 1
    requires forall k :: 0 <= k < |actions| ==> StepsTo(states[k], actions[k], states[k + 1])
    ensures Possible(states[0], actions) && After(states[0], actions) == states[|actions|]
    decreases |actions|
  {
    if actions != [] {
      assert StepsTo(states[0], actions[0], states[1]);
      TraceIsRun(states[1..], actions[1..]);
    }
  }

  /** The run is possible, ends with no thread in the library, and `o` is never satisfied after it. */
  ghost predicate NeverSatisfies(actions: seq<Action>, o: Id) {
    && Possible(EMPTY_SYSTEM, actions)
    && var s := After(EMPTY_SYSTEM, actions);
       && Quiescent(s)
       && forall more :: Possible(s, more) ==> !After(s, more).IsReady(o)
  }

  const PROMISED := EMPTY_SYSTEM.(nodes := [Node(NEW_CELL, FromPromise, false)], promises := {0})
  const RETRIEVED :=
    PROMISED.(nodes := [Node(NEW_CELL.(retrieved := true), FromPromise, false)], handles := multiset{0})

  lemma {:induction false} CommonSteps()
    ensures StepsTo(EMPTY_SYSTEM, NewPromise, PROMISED) && StepsTo(PROMISED, GetFuture(0), RETRIEVED)
  {
  }

  // ----- a functor that returns its argument

  /** `then([](future<T> f) { return f; })` on the first shared state. */
  const RETURN_ARGUMENT := Unwrap(false, (_: Outcome) => ValidFuture(0))

  const ATTACHED_BEFORE :=
    [NewPromise, GetFuture(0), Then(0, RETURN_ARGUMENT), Satisfy(0, Value(7)), Resume(0), Resume(0)]

  /** Shared state 0 belongs to the promise, shared state 1 to the future that `then` returned. */
  function TwoNodes(cell0: Cell, work: Work, abandoned: bool, promises: set<Id>, threads: seq<Thread>): System {
    EMPTY_SYSTEM.(nodes := [Node(cell0, FromPromise, abandoned), Node(NEW_CELL, FromThen(0, work), false)],
                  promises := promises, handles := multiset{1}, threads := threads)
  }

  lemma {:induction false} ThenStores(work: Work)
    requires !work.Forward?
    ensures var s := TwoNodes(Cell(NotReady, Some(Continuation(work, 1)), true), work, false, {0}, []);
            StepsTo(RETRIEVED, Then(0, work), s)
  {
  }

  lemma {:induction false} SatisfyExecutes(c: Continuation, s3: System, s4: System)
    requires s3 == TwoNodes(Cell(NotReady, Some(c), true), RETURN_ARGUMENT, false, {0}, [])
    requires s4 == TwoNodes(Cell(Ready(Value(7)), Some(c), true), RETURN_ARGUMENT, false, {0},
                            [Thread(Execute(0, c), NoFrame)])
    ensures StepsTo(s3, Satisfy(0, Value(7)), s4)
  {
  }

  lemma {:induction false} ExecuteReturnsArgument(c: Continuation, s4: System, s5: System)
    requires c == Continuation(RETURN_ARGUMENT, 1)
    requires s4 == TwoNodes(Cell(Ready(Value(7)), Some(c), true), RETURN_ARGUMENT, false, {0},
                            [Thread(Execute(0, c), NoFrame)])
    requires s5 == s4.(threads := [Thread(Attach(0, Continuation(Forward, 1)), NoFrame)], runs := multiset{1})
    ensures StepsTo(s4, Resume(0), s5)
  {
    assert s4.handles + multiset{0} - multiset{0} == s4.handles;
  }

  lemma {:induction false} SecondAttachThrows(c: Continuation, s5: System, s6: System)
    requires |s5.nodes| == 2 && s5.nodes[0].cell.continuation == Some(c)
    requires s5.threads == [Thread(Attach(0, Continuation(Forward, 1)), NoFrame)]
    requires s5.lost == {} && s5.wasted == multiset{}
    requires s6 == s5.(threads := [Thread(Idle, NoFrame)], lost := {1}, wasted := multiset{0})
    ensures StepsTo(s5, Resume(0), s6)
  {
  }

  /** Attached before the promise is satisfied, the continuation ends with an error, and its output with nothing. */
  lemma {:induction false} ReturningTheArgumentBreaksIfAttachedBefore()
    ensures NeverSatisfies(ATTACHED_BEFORE, 1)
    ensures ResultAt(After(EMPTY_SYSTEM, ATTACHED_BEFORE), 0) == Some(Value(7))
  {
    hide Possible, After, StepsTo;
    var c := Continuation(RETURN_ARGUMENT, 1);
    var s3 := TwoNodes(Cell(NotReady, Some(c), true), RETURN_ARGUMENT, false, {0}, []);
    var s4 := TwoNodes(Cell(Ready(Value(7)), Some(c), true), RETURN_ARGUMENT, false, {0},
                       [Thread(Execute(0, c), NoFrame)]);
    var s5 := s4.(threads := [Thread(Attach(0, Continuation(Forward, 1)), NoFrame)], runs := multiset{1});
    var s6 := s5.(threads := [Thread(Idle, NoFrame)], lost := {1}, wasted := multiset{0});
    CommonSteps();
    ThenStores(RETURN_ARGUMENT);
    SatisfyExecutes(c, s3, s4);
    ExecuteReturnsArgument(c, s4, s5);
    SecondAttachThrows(c, s5, s6);
    TraceIsRun([EMPTY_SYSTEM, PROMISED, RETRIEVED, s3, s4, s5, s6], ATTACHED_BEFORE);
    forall more | Possible(s6, more) ensures !After(s6, more).IsReady(1) {
      LostForEver(s6, 1, more);
    }
  }

  // ----- a functor whose promise is destroyed

  const GET_AND_RETURN := Plain(true, (x: Outcome) => x)

  const ABANDONED := [NewPromise, GetFuture(0), Then(0, GET_AND_RETURN), DestroyPromise(0)]

  lemma {:induction false} DestroyStrands(c: Continuation, s3: System, s4: System)
    requires s3 == TwoNodes(Cell(NotReady, Some(c), true), GET_AND_RETURN, false, {0}, [])
    requires s4 == TwoNodes(Cell(Ready(Raised(FutureError(BrokenPromise))), Some(c), true),
                            GET_AND_RETURN, true, {}, [])
    ensures StepsTo(s3, DestroyPromise(0), s4)
  {
  }

  /** The future is ready, but the functor attached to it is never called, and its output never satisfied. */
  lemma {:induction false} FunctorOfAbandonedPromiseIsNeverCalled()
    ensures NeverSatisfies(ABANDONED, 1)
    ensures var s := After(EMPTY_SYSTEM, ABANDONED);
            && ResultAt(s, 0) == Some(Raised(FutureError(BrokenPromise)))
            && forall more :: Possible(s, more) ==> After(s, more).runs[1] == 0
  {
    hide Possible, After, StepsTo;
    var c := Continuation(GET_AND_RETURN, 1);
    var s3 := TwoNodes(Cell(NotReady, Some(c), true), GET_AND_RETURN, false, {0}, []);
    var s4 := TwoNodes(Cell(Ready(Raised(FutureError(BrokenPromise))), Some(c), true), GET_AND_RETURN, true, {}, []);
    CommonSteps();
    ThenStores(GET_AND_RETURN);
    DestroyStrands(c, s3, s4);
    TraceIsRun([EMPTY_SYSTEM, PROMISED, RETRIEVED, s3, s4], ABANDONED);
    forall more | Possible(s4, more) ensures !After(s4, more).IsReady(1) && After(s4, more).runs[1] == 0 {
      StrandedForEver(s4, 0, 1, more);
    }
  }

  // ----- unwrapping a future whose promise is destroyed

  /** `then([](future<future<T>> f) { return f.get(); })`, where the inner future has shared state 1. */
  const UNWRAP_SECOND := Unwrap(true, (_: Outcome) => ValidFuture(1))

  const INNER_ABANDONED :=
    [NewPromise, GetFuture(0), NewPromise, GetFuture(1), Then(0, UNWRAP_SECOND), Satisfy(0, Value(7)),
     Resume(0), Resume(0), DestroyPromise(1)]

  const USED := NEW_CELL.(retrieved := true)
  const BROKEN := USED.(state := Ready(Raised(FutureError(BrokenPromise))))
  const FUNCTOR := Continuation(UNWRAP_SECOND, 2)
  const FORWARD := Continuation(Forward, 2)
  const BOTH_PROMISED :=
    RETRIEVED.(nodes := [Node(USED, FromPromise, false), Node(NEW_CELL, FromPromise, false)], promises := {0, 1})
  const BOTH_RETRIEVED :=
    RETRIEVED.(nodes := [Node(USED, FromPromise, false), Node(USED, FromPromise, false)],
               promises := {0, 1}, handles := multiset{0, 1})

  lemma {:induction false} SecondPromise()
    ensures StepsTo(RETRIEVED, NewPromise, BOTH_PROMISED) && StepsTo(BOTH_PROMISED, GetFuture(1), BOTH_RETRIEVED)
  {
    assert multiset{0} + multiset{1} == multiset{0, 1};
  }

  /** Shared states 0 and 1 belong to promises, shared state 2 to the future that `then` returned. */
  function ThreeNodes(cell0: Cell, cell1: Cell, abandoned1: bool): System {
    EMPTY_SYSTEM.(nodes := [Node(cell0, FromPromise, false), Node(cell1, FromPromise, abandoned1),
                            Node(NEW_CELL, FromThen(0, UNWRAP_SECOND), false)])
  }

  lemma {:induction false} StepsToExecute(s5: System, s6: System)
    requires s5 == ThreeNodes(USED.(continuation := Some(FUNCTOR)), USED, false).(
                     promises := {0, 1}, handles := multiset{1, 2})
    requires s6 == s5.(nodes := ThreeNodes(Cell(Ready(Value(7)), Some(FUNCTOR), true), USED, false).nodes,
                       threads := [Thread(Execute(0, FUNCTOR), NoFrame)])
    ensures StepsTo(BOTH_RETRIEVED, Then(0, UNWRAP_SECOND), s5) && StepsTo(s5, Satisfy(0, Value(7)), s6)
  {
    assert multiset{0, 1} - multiset{0} + multiset{2} == multiset{1, 2};
  }

  lemma {:induction false} FunctorReturnsSecond(s: System, s': System, frame: Frame)
    requires s.IsReady(0) && s.threads == [Thread(Execute(0, FUNCTOR), frame)]
    requires 1 in s.handles && s.gets == multiset{} && s.runs == multiset{}
    requires s' == s.(handles := s.handles - multiset{1}, gets := multiset{0}, runs := multiset{2},
                      threads := [Thread(Attach(1, FORWARD), frame)])
    ensures StepsTo(s, Resume(0), s')
  {
    assert HandOver(s, 0, FUNCTOR) == s.(gets := multiset{0}, runs := multiset{2});
    assert ReplyOf(UNWRAP_SECOND, s.OutcomeOf(0)) == Awaits(1);
    hide HandOver, ReplyOf;
  }

  lemma {:induction false} ForwardIsStored(s7: System, s8: System)
    requires s7.nodes == ThreeNodes(Cell(Ready(Value(7)), Some(FUNCTOR), true), USED, false).nodes
    requires s7.threads == [Thread(Attach(1, FORWARD), NoFrame)]
    requires s8 == s7.(nodes := ThreeNodes(s7.nodes[0].cell, USED.(continuation := Some(FORWARD)), false).nodes,
                       threads := [Thread(Idle, NoFrame)])
    ensures StepsTo(s7, Resume(0), s8)
  {
  }

  lemma {:induction false} DestroyStrandsForward(s8: System, s9: System)
    requires s8.nodes == ThreeNodes(Cell(Ready(Value(7)), Some(FUNCTOR), true),
                                    USED.(continuation := Some(FORWARD)), false).nodes
    requires s8.promises == {0, 1}
    requires s9 == s8.(nodes := ThreeNodes(s8.nodes[0].cell, BROKEN.(continuation := Some(FORWARD)), true).nodes,
                       promises := {0})
    ensures StepsTo(s8, DestroyPromise(1), s9)
  {
  }

  /** Both the outer future and the inner one that it yields are ready, but the unwrapping future never is. */
  lemma {:induction false} UnwrappingAbandonedIsNeverSatisfied()
    ensures NeverSatisfies(INNER_ABANDONED, 2)
    ensures var s := After(EMPTY_SYSTEM, INNER_ABANDONED);
            s.IsReady(0) && ResultAt(s, 1) == Some(Raised(FutureError(BrokenPromise)))
  {
    hide Possible, After, StepsTo;
    var s5 := ThreeNodes(USED.(continuation := Some(FUNCTOR)), USED, false).(
      promises := {0, 1}, handles := multiset{1, 2});
    var s6 := s5.(nodes := ThreeNodes(Cell(Ready(Value(7)), Some(FUNCTOR), true), USED, false).nodes,
                  threads := [Thread(Execute(0, FUNCTOR), NoFrame)]);
    var s7 := s6.(handles := multiset{2}, gets := multiset{0}, runs := multiset{2},
                  threads := [Thread(Attach(1, FORWARD), NoFrame)]);
    var s8 := s7.(nodes := ThreeNodes(s6.nodes[0].cell, USED.(continuation := Some(FORWARD)), false).nodes,
                  threads := [Thread(Idle, NoFrame)]);
    var s9 := s8.(nodes := ThreeNodes(s8.nodes[0].cell, BROKEN.(continuation := Some(FORWARD)), true).nodes,
                  promises := {0});
    CommonSteps();
    SecondPromise();
    StepsToExecute(s5, s6);
    assert multiset{1, 2} - multiset{1} == multiset{2};
    FunctorReturnsSecond(s6, s7, NoFrame);
    ForwardIsStored(s7, s8);
    DestroyStrandsForward(s8, s9);
    TraceIsRun([EMPTY_SYSTEM, PROMISED, RETRIEVED, BOTH_PROMISED, BOTH_RETRIEVED, s5, s6, s7, s8, s9], INNER_ABANDONED);
    forall more | Possible(s9, more) ensures !After(s9, more).IsReady(2) {
      StrandedForEver(s9, 1, 2, more);
    }
  }

  // ----- a value that is retrieved twice

  const GOT_TWICE :=
    [NewPromise, GetFuture(0), NewPromise, GetFuture(1), Satisfy(0, Value(7)), DestroyPromise(1),
     Then(0, UNWRAP_SECOND), Resume(0), Resume(0), Resume(0), Get(0)]

  /** Here the inner promise is destroyed only after `then` was called, by another thread. */
  const GOT_TWICE_LATE :=
    [NewPromise, GetFuture(0), NewPromise, GetFuture(1), Satisfy(0, Value(7)), Then(0, UNWRAP_SECOND),
     DestroyPromise(1), Resume(0), Resume(0), Resume(0), Get(0)]

  const SATISFIED := USED.(state := Ready(Value(7)))
  const FIRST_SATISFIED :=
    BOTH_RETRIEVED.(nodes := [Node(SATISFIED, FromPromise, false), Node(USED, FromPromise, false)])
  const SECOND_BROKEN :=
    FIRST_SATISFIED.(nodes := [Node(SATISFIED, FromPromise, false), Node(BROKEN, FromPromise, true)], promises := {0})
  const CALLED_EARLY :=
    ThreeNodes(SATISFIED, USED, false).(
      promises := {0, 1}, handles := multiset{1}, threads := [Thread(Execute(0, FUNCTOR), ThenCall(0, 2))])
  const CALLED :=
    ThreeNodes(SATISFIED, BROKEN, true).(
      promises := {0}, handles := multiset{1}, threads := [Thread(Execute(0, FUNCTOR), ThenCall(0, 2))])
  const RETURNED :=
    CALLED.(handles := multiset{}, gets := multiset{0}, runs := multiset{2},
            threads := [Thread(Attach(1, FORWARD), ThenCall(0, 2))])
  const FORWARDING := RETURNED.(threads := [Thread(Execute(1, FORWARD), ThenCall(0, 2))])
  const THREW :=
    FORWARDING.(threads := [Thread(Idle, NoFrame)], handles := multiset{0}, gets := multiset{0, 1},
                lost := {2}, unwound := multiset{0}, thrown := {2}, wasted := multiset{2})
  const GOT_AGAIN := THREW.(handles := multiset{}, gets := multiset{0, 1, 0})

  lemma {:induction false} SatisfyFirst()
    ensures StepsTo(BOTH_RETRIEVED, Satisfy(0, Value(7)), FIRST_SATISFIED)
  {
  }

  lemma {:induction false} DestroyThenCall()
    ensures StepsTo(FIRST_SATISFIED, DestroyPromise(1), SECOND_BROKEN)
    ensures StepsTo(SECOND_BROKEN, Then(0, UNWRAP_SECOND), CALLED)
  {
    assert multiset{0, 1} - multiset{0} == multiset{1};
  }

  lemma {:induction false} CallThenDestroy()
    ensures StepsTo(FIRST_SATISFIED, Then(0, UNWRAP_SECOND), CALLED_EARLY)
    ensures StepsTo(CALLED_EARLY, DestroyPromise(1), CALLED)
  {
    assert multiset{0, 1} - multiset{0} == multiset{1};
  }

  lemma {:induction false} FunctorCallsGet()
    ensures StepsTo(CALLED, Resume(0), RETURNED)
  {
    FunctorReturnsSecond(CALLED, RETURNED, ThenCall(0, 2));
  }

  lemma {:induction false} ForwardIsExecuted()
    ensures StepsTo(RETURNED, Resume(0), FORWARDING)
  {
  }

  lemma {:induction false} ThrowLeavesFutureValid()
    ensures StepsTo(FORWARDING, Resume(0), THREW)
  {
    assert multiset{0} + multiset{1} == multiset{0, 1};
  }

  lemma {:induction false} GetOnceMore()
    ensures StepsTo(THREW, Get(0), GOT_AGAIN)
  {
    assert multiset{0, 1} + multiset{0} == multiset{0, 1, 0};
  }

  /**
   The functor has called `get()` before `then` throws the exception of the future that it
   returned. The first future is still valid, and its value is retrieved once more. No
   functor raises anything.
   */
  lemma {:induction false} ValueIsRetrievedTwice()
    ensures Possible(EMPTY_SYSTEM, GOT_TWICE)
    ensures var s := After(EMPTY_SYSTEM, GOT_TWICE);
            Quiescent(s) && s.gets[0] == 2 && s.lost == {2} && s.thrown == {2}
  {
    hide Possible, After, StepsTo;
    CommonSteps();
    SecondPromise();
    SatisfyFirst();
    DestroyThenCall();
    FunctorCallsGet();
    ForwardIsExecuted();
    ThrowLeavesFutureValid();
    GetOnceMore();
    TraceIsRun([EMPTY_SYSTEM, PROMISED, RETRIEVED, BOTH_PROMISED, BOTH_RETRIEVED, FIRST_SATISFIED, SECOND_BROKEN,
                CALLED, RETURNED, FORWARDING, THREW, GOT_AGAIN], GOT_TWICE);
  }

  /** The same end, although nothing was wrong when `then` was called: the inner future was not satisfied yet. */
  lemma {:induction false} ValueIsRetrievedTwiceLate()
    ensures Possible(EMPTY_SYSTEM, GOT_TWICE_LATE) && Possible(EMPTY_SYSTEM, GOT_TWICE_LATE[..5])
    ensures var call := After(EMPTY_SYSTEM, GOT_TWICE_LATE[..5]);
            call.IsReady(0) && !ReplyThrows(call, ReplyOf(UNWRAP_SECOND, call.OutcomeOf(0)))
    ensures var s := After(EMPTY_SYSTEM, GOT_TWICE_LATE);
            Quiescent(s) && s.gets[0] == 2 && s.lost == {2} && s.thrown == {2}
  {
    hide Possible, After, StepsTo;
    CommonSteps();
    SecondPromise();
    SatisfyFirst();
    CallThenDestroy();
    FunctorCallsGet();
    ForwardIsExecuted();
    ThrowLeavesFutureValid();
    GetOnceMore();
    var states := [EMPTY_SYSTEM, PROMISED, RETRIEVED, BOTH_PROMISED, BOTH_RETRIEVED, FIRST_SATISFIED];
    TraceIsRun(states, GOT_TWICE_LATE[..5]);
    TraceIsRun(states + [CALLED_EARLY, CALLED, RETURNED, FORWARDING, THREW, GOT_AGAIN], GOT_TWICE_LATE);
  }
}
