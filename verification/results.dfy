/** Failure-compatible wrappers shared by the universe filter and the portfolio builder.
    Every exception the scripts can raise on their inputs is an `Error` value here. */
module Results {

  /** The ways a run aborts. */
  datatype Error =
    | MissingColumns(names: set<string>)   // columns looked up by name are absent (pandas KeyError)
    | ParseError(column: string)           // `astype(float)` met a cell that is not a number
    | InvalidFactors                       // the constructor's column check raised
    | NotImplemented(weighting: string)    // a weighting scheme other than equal weight
    | DivisionByZero                       // an equal weight whose leg count is zero
    | CategoricalWeights                   // arithmetic on a `Weight` column left categorical (TypeError)

  datatype Option<+T> = None | Some(value: T)

  datatype Result<+T> = Success(value: T) | Failure(error: Error) {

    predicate IsFailure() {
      Failure?
    }

    function PropagateFailure<U>(): Result<U>
      requires Failure?
    {
      Failure(error)
    }

    function Extract(): T
      requires Success?
    {
      value
    }
  }
}
