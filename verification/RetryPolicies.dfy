/** The "count errors and then stop" retry policy. */
module RetryPolicies {
  import opened ReadRowsParsing

  predicate IsTransientFailure(status: Status) {
    status in {ABORTED, UNAVAILABLE, DEADLINE_EXCEEDED}
  }

  predicate IsPermanentFailure(status: Status) {
    status != OK && !IsTransientFailure(status)
  }

  class LimitedErrorCountRetryPolicy {
    var failureCount: nat
    const maximumFailures: int

    constructor (maximumFailures: int)
      ensures failureCount == 0 && this.maximumFailures == maximumFailures
    {
      failureCount := 0;
      this.maximumFailures := maximumFailures;
    }

    predicate IsExhausted()
      reads this
    {
      failureCount > maximumFailures
    }

    /** DEADLINE_EXCEEDED, ABORTED and UNAVAILABLE are 4, 10 and 14; any other error is final. */
    method OnFailure(status: Status) returns (retry: bool)
      modifies this
      ensures failureCount == old(failureCount) + if status in {0, 4, 10, 14} then 1 else 0
      ensures retry <==> status in {0, 4, 10, 14} && failureCount <= maximumFailures
    {
      if IsPermanentFailure(status) {
        return false;
      }
      failureCount := failureCount + 1;
      return !IsExhausted();
    }
  }
}
