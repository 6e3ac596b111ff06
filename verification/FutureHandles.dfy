/**
 The objects that applications hold: `promise` and `future`, each with at most one
 shared state. Running the continuation that a call hands back is up to the thread.
 */
module FutureHandles {
  import opened Options
  import opened SharedStates

  class Future {
    var sharedState: SharedState?

    constructor (state: SharedState?)
      ensures sharedState == state
    {
      sharedState := state;
    }

    predicate IsValid()
      reads this
    {
      sharedState != null
    }

    /** Gives up the shared state, then takes its outcome. */
    method Get() returns (thrown: Option<FutureErrc>, outcome: Option<Outcome>)
      requires sharedState != null ==> sharedState.Valid() && sharedState.IsReadyUnlocked()
      modifies this
      ensures !IsValid()
      ensures old(sharedState) == null ==> thrown == Some(NoState) && outcome == None
      ensures old(sharedState) != null ==> thrown == None && outcome.Some?
                                           && old(sharedState.Abstract()).state == Ready(outcome.value)
    {
      if sharedState == null {
        return Some(NoState), None;
      }
      var tmp := sharedState;
      sharedState := null;
      var result := tmp.Get();
      return None, Some(result);
    }

    /** The first part of `then`: the future stays valid until what was handed back has been executed. */
    method AttachContinuation(k: Continuation) returns (thrown: Option<FutureErrc>, execute: Option<Continuation>)
      requires sharedState != null ==> sharedState.Valid()
      modifies sharedState
      ensures sharedState == old(sharedState)
      ensures sharedState == null ==> thrown == Some(NoState) && execute == None
      ensures sharedState != null ==>
                && sharedState.Valid()
                && Performs(SetContinuation(old(sharedState.Abstract()), k),
                            old(sharedState.Abstract()), sharedState.Abstract(), thrown, execute)
    {
      if sharedState == null {
        return Some(NoState), None;
      }
      thrown, execute := sharedState.StoreOrExecute(k);
    }

    /** The last part of `then`: nothing has thrown, so the future is given up for the new one. */
    method FinishThen(output: SharedState) returns (next: Future)
      modifies this
      ensures !IsValid() && fresh(next) && next.sharedState == output
    {
      sharedState := null;
      next := new Future(output);
    }
  }

  class Promise {
    var sharedState: SharedState?

    constructor ()
      ensures sharedState != null && fresh(sharedState) && sharedState.Valid() && sharedState.Abstract() == NEW_CELL
    {
      sharedState := new SharedState();
    }

    /** Succeeds exactly once for each shared state. */
    method GetFuture() returns (thrown: Option<FutureErrc>, future: Future?)
      requires sharedState != null ==> sharedState.Valid()
      modifies sharedState
      ensures thrown.None? <==> future != null
      ensures sharedState == null ==> thrown == Some(NoState)
      ensures sharedState != null ==>
                && sharedState.Valid()
                && Performs(MarkRetrieved(old(sharedState.Abstract())),
                            old(sharedState.Abstract()), sharedState.Abstract(), thrown, None)
                && (future != null ==> fresh(future) && future.sharedState == sharedState)
    {
      if sharedState == null {
        return Some(NoState), null;
      }
      thrown := sharedState.Retrieve();
      if thrown.Some? {
        return thrown, null;
      }
      future := new Future(sharedState);
    }

    /** `set_value` and `set_exception`. */
    method SetResult(result: Outcome) returns (thrown: Option<FutureErrc>, execute: Option<Continuation>)
      requires sharedState != null ==> sharedState.Valid()
      modifies sharedState
      ensures sharedState == null ==> thrown == Some(NoState) && execute == None
      ensures sharedState != null ==>
                && sharedState.Valid()
                && Performs(SetOutcome(old(sharedState.Abstract()), result),
                            old(sharedState.Abstract()), sharedState.Abstract(), thrown, execute)
    {
      if sharedState == null {
        return Some(NoState), None;
      }
      match result
      case Value(payload) => thrown, execute := sharedState.SetValue(payload);
      case Raised(exception) => thrown, execute := sharedState.SetException(exception);
    }

    /** The destructor. */
    method Destroy()
      requires sharedState != null ==> sharedState.Valid()
      modifies this, sharedState
      ensures sharedState == null
      ensures old(sharedState) != null ==>
                old(sharedState).Valid() && old(sharedState).Abstract() == Abandon(old(sharedState.Abstract()))
    {
      if sharedState != null {
        sharedState.AbandonState();
        sharedState := null;
      }
    }

    /** Move assignment: takes over the state of `rhs` and abandons the one held so far; on itself it does nothing. */
    method MoveAssign(rhs: Promise)
      requires sharedState != null ==> sharedState.Valid() && (rhs != this ==> rhs.sharedState != sharedState)
      modifies this, rhs, sharedState
      ensures sharedState == old(rhs.sharedState)
      ensures rhs == this && sharedState != null ==>
                sharedState.Valid() && sharedState.Abstract() == old(sharedState.Abstract())
      ensures rhs != this ==> rhs.sharedState == null
      ensures rhs != this && old(sharedState) != null ==>
                old(sharedState).Valid() && old(sharedState).Abstract() == Abandon(old(sharedState.Abstract()))
    {
      var tmp := rhs.sharedState;
      rhs.sharedState := null;
      sharedState, tmp := tmp, sharedState;
      if tmp != null {
        tmp.AbandonState();
      }
    }
  }
}
