/** The `retry(attempts)` decorator of autocog/retry.py. The wrapped
    function is an oracle: `calls(k)` is what its `k`-th call (from 0)
    does. */
module Retry {
  import opened Wrappers

  /** The calls the decorator makes from call `made` on, as a reference
      definition: a return is passed on, wrapped in Some; a
      `BaseException` escapes the `except Exception` clause at once; an
      `Exception` is retried while attempts are left and re-raised on the
      last one; no attempts at all return None. The pair holds the outcome
      and the number of calls made. */
  function Tries<T>(calls: nat -> Outcome<T>, made: nat, attempts: int): (r: (Outcome<Option<T>>, nat))
    decreases attempts - made
    ensures attempts <= made ==> r == (Returned(None), made)
    ensures made < attempts ==> made < r.1 <= attempts
    ensures forall k :: made <= k < r.1 - 1 ==> calls(k).Raised? && calls(k).error.Exception?
    ensures r.0.Returned? && made < attempts ==> calls(r.1 - 1).Returned? && r.0.value == Some(calls(r.1 - 1).value)
    ensures r.0.Raised? ==> calls(r.1 - 1).Raised? && r.0.error == calls(r.1 - 1).error
    ensures r.0.Raised? && r.0.error.Exception? ==> r.1 == attempts
  {
    if attempts <= made then (Returned(None), made)
    else match calls(made)
      case Returned(v) => (Returned(Some(v)), made + 1)
      case Raised(e) =>
        if e.BaseException? || made + 1 >= attempts then (Raised(e), made + 1)
        else Tries(calls, made + 1, attempts)
  }

  /** `wrapper_retry(...)`: the loop over `range(1, attempts + 1)`, with the
      outcome and the number of calls made. */
  method Retry<T>(attempts: int, calls: nat -> Outcome<T>) returns (r: Outcome<Option<T>>, made: nat)
    ensures (r, made) == Tries(calls, 0, attempts)
  {
    made := 0;
    var attempt := 1;
    while attempt <= attempts
      invariant 1 <= attempt && made == attempt - 1
      invariant Tries(calls, 0, attempts) == Tries(calls, made, attempts)
      decreases attempts - attempt
    {
      var outcome := calls(made);
      made := made + 1;
      match outcome {
        case Returned(v) =>
          return Returned(Some(v)), made;
        case Raised(e) =>
          if e.BaseException? || attempt >= attempts {
            return Raised(e), made;
          }
      }
      attempt := attempt + 1;
    }
    return Returned(None), made;
  }

  /** Success on attempt `k`, after `k - 1` exceptions, makes exactly `k`
      calls and returns that call's value. */
  lemma {:induction false} SucceedsOnAttempt<T>(calls: nat -> Outcome<T>, attempts: int, made: nat, k: nat)
    requires made < k <= attempts
    requires forall j :: made <= j < k - 1 ==> calls(j).Raised? && calls(j).error.Exception?
    requires calls(k - 1).Returned?
    decreases k - made
    ensures Tries(calls, made, attempts) == (Returned(Some(calls(k - 1).value)), k)
  {
    if made < k - 1 {
      assert calls(made).Raised? && calls(made).error.Exception?;
      SucceedsOnAttempt(calls, attempts, made + 1, k);
    }
  }

  /** When every call raises an `Exception`, all `attempts` calls are made
      and the last exception is raised again. */
  lemma {:induction false} GivesUpWithLast<T>(calls: nat -> Outcome<T>, attempts: int, made: nat)
    requires made < attempts
    requires forall j :: made <= j < attempts ==> calls(j).Raised? && calls(j).error.Exception?
    decreases attempts - made
    ensures Tries(calls, made, attempts) == (Raised(calls(attempts - 1).error), attempts)
  {
    if made + 1 < attempts {
      GivesUpWithLast(calls, attempts, made + 1);
    }
  }
}
