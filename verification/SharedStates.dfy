/**
 The shared state of a future and its promise. `Cell` is what the mutex protects; the
 functions on it are the critical sections, and `SharedState` is the object that runs
 them. A critical section does not run continuations: it hands back the one that its
 caller has to execute after releasing the lock.
 */
module SharedStates {
  import opened Options

  /** Identifies a shared state. */
  type Id = nat

  /** Stands for the values that are moved around; nothing depends on what they are. */
  type Payload = int

  datatype FutureErrc = BrokenPromise | FutureAlreadyRetrieved | PromiseAlreadySatisfied | NoState
  datatype Exception = FutureError(code: FutureErrc) | OtherException(what: int)

  /** What satisfies a shared state. */
  datatype Outcome = Value(payload: Payload) | Raised(exception: Exception)

  /** What a functor that returns a future may do. */
  datatype Inner = Throws(exception: Exception) | InvalidFuture | ValidFuture(id: Id)

  /**
   What a continuation does with its input: call a functor, call a functor that returns
   a future, or pass on the result of that future. A functor that does not call `get()`
   keeps the future it was given.
   */
  datatype Work =
    | Plain(callsGet: bool, functor: Outcome -> Outcome)
    | Unwrap(callsGet: bool, unwrapFunctor: Outcome -> Inner)
    | Forward

  datatype Continuation = Continuation(work: Work, output: Id)

  datatype State = NotReady | Ready(outcome: Outcome)

  datatype Cell = Cell(state: State, continuation: Option<Continuation>, retrieved: bool)

  const NEW_CELL := Cell(NotReady, None, false)

  /** The end of a critical section: an exception, or a new cell and a continuation to execute. */
  datatype Effect = Fails(code: FutureErrc) | Done(cell: Cell, execute: Option<Continuation>)

  /** `set_value` and `set_exception`. */
  function SetOutcome(c: Cell, outcome: Outcome): Effect {
    if c.state.Ready? then Fails(PromiseAlreadySatisfied)
    else Done(c.(state := Ready(outcome)), c.continuation)
  }

  /** `abandon`: satisfies the state, but leaves a stored continuation alone. */
  function Abandon(c: Cell): Cell {
    if c.state.Ready? then c else c.(state := Ready(Raised(FutureError(BrokenPromise))))
  }

  function SetContinuation(c: Cell, k: Continuation): Effect {
    if c.continuation.Some? then Fails(FutureAlreadyRetrieved)
    else if c.state.Ready? then Done(c, Some(k))
    else Done(c.(continuation := Some(k)), None)
  }

  function MarkRetrieved(c: Cell): Effect {
    if c.retrieved then Fails(FutureAlreadyRetrieved) else Done(c.(retrieved := true), None)
  }

  /** A call that throws changes nothing; otherwise the effect says what the cell becomes and what is to be executed. */
  ghost predicate Performs(
      effect: Effect, before: Cell, after: Cell, thrown: Option<FutureErrc>, execute: Option<Continuation>)
  {
    match effect
    case Fails(code) => thrown == Some(code) && execute == None && after == before
    case Done(cell, run) => thrown == None && execute == run && after == cell
  }

  datatype CurrentState = StateNotReady | StateHasException | StateHasValue

  /** `future_shared_state<T>`. */
  class SharedState {
    var retrieved: bool
    var locked: bool
    var currentState: CurrentState
    var exception: Option<Exception>
    var buffer: Option<Payload>
    var continuation: Option<Continuation>

    ghost predicate Valid()
      reads this
    {
      && !locked
      && (currentState.StateHasException? <==> exception.Some?)
      && (currentState.StateHasValue? <==> buffer.Some?)
    }

    ghost function Abstract(): Cell
      requires Valid()
      reads this
    {
      Cell(match currentState
           case StateNotReady => NotReady
           case StateHasException => Ready(Raised(exception.value))
           case StateHasValue => Ready(Value(buffer.value)),
           continuation, retrieved)
    }

    constructor ()
      ensures Valid() && Abstract() == NEW_CELL
    {
      retrieved, locked, currentState := false, false, StateNotReady;
      exception, buffer, continuation := None, None, None;
    }

    predicate IsReadyUnlocked()
      reads this
    {
      !currentState.StateNotReady?
    }

    /** The continuation is called after the lock is released; without one, waiting threads are woken. */
    method NotifyNow() returns (execute: Option<Continuation>)
      requires locked
      modifies `locked
      ensures !locked && execute == continuation
    {
      if continuation.Some? {
        locked := false;
        return continuation;
      }
      locked := false;
      return None;
    }

    method SetException(ex: Exception) returns (thrown: Option<FutureErrc>, execute: Option<Continuation>)
      requires Valid()
      modifies this
      ensures Valid()
      ensures Performs(SetOutcome(old(Abstract()), Raised(ex)), old(Abstract()), Abstract(), thrown, execute)
    {
      locked := true;
      if IsReadyUnlocked() {
        locked := false;
        return Some(PromiseAlreadySatisfied), None;
      }
      exception := Some(ex);
      currentState := StateHasException;
      execute := NotifyNow();
      thrown := None;
    }

    method SetValue(value: Payload) returns (thrown: Option<FutureErrc>, execute: Option<Continuation>)
      requires Valid()
      modifies this
      ensures Valid()
      ensures Performs(SetOutcome(old(Abstract()), Value(value)), old(Abstract()), Abstract(), thrown, execute)
    {
      locked := true;
      if IsReadyUnlocked() {
        locked := false;
        return Some(PromiseAlreadySatisfied), None;
      }
      buffer := Some(value);
      currentState := StateHasValue;
      execute := NotifyNow();
      thrown := None;
    }

    method AbandonState()
      requires Valid()
      modifies this
      ensures Valid() && Abstract() == Abandon(old(Abstract()))
    {
      locked := true;
      if IsReadyUnlocked() {
        locked := false;
        return;
      }
      exception := Some(FutureError(BrokenPromise));
      currentState := StateHasException;
      locked := false;
    }

    method StoreOrExecute(k: Continuation) returns (thrown: Option<FutureErrc>, execute: Option<Continuation>)
      requires Valid()
      modifies this
      ensures Valid() && Performs(SetContinuation(old(Abstract()), k), old(Abstract()), Abstract(), thrown, execute)
    {
      locked := true;
      if continuation.Some? {
        locked := false;
        return Some(FutureAlreadyRetrieved), None;
      }
      if IsReadyUnlocked() {
        locked := false;
        return None, Some(k);
      }
      continuation := Some(k);
      locked := false;
      return None, None;
    }

    method Retrieve() returns (thrown: Option<FutureErrc>)
      requires Valid()
      modifies this
      ensures Valid() && Performs(MarkRetrieved(old(Abstract())), old(Abstract()), Abstract(), thrown, None)
    {
      if retrieved {
        return Some(FutureAlreadyRetrieved);
      }
      retrieved := true;
      return None;
    }

    /** `get()` of the shared state, at the moment its wait ends. */
    method Get() returns (outcome: Outcome)
      requires Valid() && IsReadyUnlocked()
      ensures Abstract().state == Ready(outcome)
    {
      if currentState.StateHasException? {
        return Raised(exception.value);
      }
      return Value(buffer.value);
    }
  }
}
