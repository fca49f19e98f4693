/** Bounded retries of an operation that may raise. */
module Retry {
  import opened Wrappers

  const MAX_RETRIES := 2

  /** The shared record of failed attempts by node name. */
  class RetryCount {
    var counts: map<string, nat>

    constructor ()
      ensures counts == map[]
    {
      counts := map[];
    }
  }

  /** An operation's successive attempts: `None` where the attempt raises. */
  type Operation<!T> = nat -> Option<T>

  /** How many attempts are made from attempt `k` on. */
  function Attempts<T>(operation: Operation<T>, k: nat := 0): (n: nat)
    requires k <= MAX_RETRIES
    ensures 1 <= n <= MAX_RETRIES + 1 - k
    ensures forall i :: k <= i < k + n - 1 ==> operation(i).None?
    ensures n <= MAX_RETRIES - k ==> operation(k + n - 1).Some?
    decreases MAX_RETRIES - k
  {
    if operation(k).Some? || k == MAX_RETRIES then 1 else 1 + Attempts(operation, k + 1)
  }

  /** The value of the first attempt that succeeds, or `None` for its last exception. */
  function Outcome<T>(operation: Operation<T>): Option<T> {
    operation(Attempts(operation) - 1)
  }

  /** There is a value exactly if one of the first three attempts has one, and it is the
      earliest of them. */
  lemma OutcomeIsFirstSuccess<T>(operation: Operation<T>)
    ensures Outcome(operation).Some? <==> exists i :: 0 <= i < 3 && operation(i).Some?
    ensures Outcome(operation).Some? ==>
              exists i :: && 0 <= i < 3 && operation(i) == Outcome(operation)
                          && forall j :: 0 <= j < i ==> operation(j).None?
  {
    var n := Attempts(operation);
    assert operation(n - 1) == Outcome(operation);
  }

  /** Up to three attempts; the record under `node` becomes the number of them that
      failed, and stays as it was if none did. */
  method CallWithRetry<T>(node: string, operation: Operation<T>, retryCount: RetryCount)
    returns (result: Option<T>, calls: nat)
    modifies retryCount
    ensures calls == Attempts(operation) && result == Outcome(operation)
    ensures var failed := if result.Some? then calls - 1 else calls;
            retryCount.counts == if failed == 0 then old(retryCount.counts) else old(retryCount.counts)[node := failed]
  {
    var attempt := 0;
    while true
      invariant 0 <= attempt <= MAX_RETRIES
      invariant Attempts(operation) == attempt + Attempts(operation, attempt)
      invariant retryCount.counts ==
                if attempt == 0 then old(retryCount.counts) else old(retryCount.counts)[node := attempt]
      decreases MAX_RETRIES - attempt
    {
      result := operation(attempt);
      if result.Some? {
        return result, attempt + 1;
      }
      retryCount.counts := retryCount.counts[node := attempt + 1];
      if attempt >= MAX_RETRIES {
        return result, attempt + 1;
      }
      attempt := attempt + 1;
    }
  }
}
