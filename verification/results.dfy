/** Failure-compatible result types and the error cases of the inference core. */
module Results {

  /** The exceptions the three distribution classes throw, one constructor per
      kind of check. All but the last are invalid-argument errors. */
  datatype Error =
    | EmptyConcentration        // Dirichlet built from an empty alpha vector
    | NonPositiveConcentration  // some concentration parameter is <= 0
    | DimensionChanged          // setAlpha with a vector of a different length
    | DimensionMismatch         // logPdf with a point of the wrong length
    | NotOnSimplex              // logPdf with a point whose sum is not within tolerance of 1
    | EmptyProbabilities        // Categorical built from an empty vector
    | NonPositiveTotal          // Categorical built from a vector whose sum is <= 0
    | CountsLengthMismatch      // a count vector whose length is not the number of categories
    | NoSingleAlpha             // the scalar alpha is asked for under a manual prior (logic error)
  {
    predicate IsInvalidArgument() {
      !NoSingleAlpha?
    }
  }

  datatype Result<+T> = Success(value: T) | Failure(error: Error) {
    predicate IsFailure() {
      Failure?
    }

    function PropagateFailure<U>(): Result<U>
      requires Failure?
    {
      Failure(error)
    }

    function Extract(): T
      requires Success?
    {
      value
    }
  }

  /** Outcome of a state-changing call: it either completed or threw. */
  datatype Status = Done | Failed(error: Error)

  datatype Option<+T> = None | Some(value: T)

  /** A log-probability: either negative infinity (an impossible event) or finite. */
  datatype LogValue = NegInf | Finite(value: real)
}
