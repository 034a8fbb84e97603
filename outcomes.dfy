/** Values shared by every workflow step: optional values, the results of
    store calls that may fail, and the pair a step returns to the workflow
    runner (its output and the payload handed to its compensation). */
module Outcomes {

  datatype Option<T> = None | Some(value: T)

  /** The failures the steps can surface. */
  datatype Error =
    | NotFound       // a retrieve or update of a brand id the store does not hold
    | AlreadyExists  // a create of a brand id the store already holds

  datatype Result<T> = Ok(value: T) | Err(error: Error)

  /** What a step's forward action hands back: the output the workflow
      returns, and the data its compensation receives on rollback. */
  datatype StepResponse<O, C> = StepResponse(output: O, compensateInput: C)

  /** A store call or step viewed as a function: the store afterwards and
      the result or error of the call. */
  datatype Outcome<S, T> = Outcome(state: S, result: Result<T>)

  /** A single-step workflow returns the output of its step, or the step's error. */
  function OutputOf<O, C>(r: Result<StepResponse<O, C>>): (out: Result<O>)
    ensures out.Ok? <==> r.Ok?
    ensures r.Ok? ==> out.value == r.value.output
    ensures r.Err? ==> out.error == r.error
  {
    match r
    case Ok(response) => Ok(response.output)
    case Err(e) => Err(e)
  }

  /** JavaScript truthiness of an optional string: absent and "" are falsy. */
  predicate Truthy(s: Option<string>) {
    s.Some? && s.value != ""
  }
}
