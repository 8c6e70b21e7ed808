/** Failure-carrying values used in place of Go's nil-or-error returns. */
module Wrappers {

  datatype Option<T> = None | Some(value: T)

  /** A Go `error` that may be nil: `Pass` is nil, `Fail` carries the error text. */
  datatype Outcome = Pass | Fail(message: string)

  /** A Go `(T, error)` pair where exactly one side is meaningful. */
  datatype Result<T> = Ok(value: T) | Err(message: string)

  /** The first failing outcome of a sequence of steps, or Pass: the error a sequence of
      steps reports when it returns the error of the first step that failed. */
  function FirstFailure(stages: seq<Outcome>): (r: Outcome)
    ensures r.Pass? <==> forall k :: 0 <= k < |stages| ==> stages[k].Pass?
    ensures r.Fail? ==> exists k :: 0 <= k < |stages| && stages[k] == r
                          && forall j :: 0 <= j < k ==> stages[j].Pass?
    decreases |stages|
  {
    if stages == [] then Pass
    else if stages[0].Fail? then stages[0]
    else
      var r := FirstFailure(stages[1..]);
      assert forall j :: 1 <= j < |stages| ==> stages[j] == stages[1..][j - 1];
      r
  }

  /** Prepending one outcome. */
  lemma FirstFailureCons(o: Outcome, rest: seq<Outcome>)
    ensures FirstFailure([o] + rest) == if o.Fail? then o else FirstFailure(rest)
  {
    assert ([o] + rest)[1..] == rest;
  }
}
