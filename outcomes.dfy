/**
 * Option and Result, and the errors the fitting layer raises.
 */
module Outcomes {

  datatype Option<T> = None | Some(value: T)

  /** The exceptions that reach the caller of a fit. */
  datatype FitError =
    /** ValueError from bounds resolution: these free keys have bounds whose
        shape is not (2,) + the parameter's shape, in free-spec order. */
    | BoundsShape(keys: seq<string>)
    /** ValueError from mask application: these mask keys have a mask whose
        shape differs from the lower-bound array's, in mask order. */
    | MaskShape(keys: seq<string>)
    /** The bound pair of this scalar parameter cannot be indexed as
        [lower, upper] (fewer than two rows, or no axis at all). */
    | BoundIndex(key: string)
    /** No model function was given, neither to the fit nor at construction. */
    | NoModel

  datatype Result<T> = Ok(value: T) | Err(error: FitError)
}
