/** Failure-carrying results for the exceptions the estimation pipeline raises.
    Every exception of the Python code is a value of `Error`, so an operation that
    can raise returns a `Result` (or an `Outcome` when it returns nothing). */
module Wrappers {

  datatype Option<T> = None | Some(value: T) {
    /** The wrapped value, or `default` for None. */
    function GetOr(default: T): T {
      match this
      case Some(v) => v
      case None => default
    }
  }

  /** The exceptions of the modelled code, by cause. */
  datatype Error =
    | ZeroStat                      // ValueError: a histogram whose counts sum to zero
    | UnknownVariable(name: string) // ValueError: list.index of a variable name that is not there
    | DimensionMismatch             // ValueError("Check the Variables")
    | ShapeMismatch                 // ValueError("Check ensemble shape ...")
    | BadRank                       // ValueError("Check the array.ndim")
    | IncompleteEstimation          // ValueError("ERROR : Fail to estimate E")
    | MissingKey                    // KeyError
    | IndexOutOfRange               // IndexError
    | NotSubscriptable              // TypeError: a scalar indexed as a sequence
    | NotANumber                    // ValueError raised by float()
    | RecursionLimit                // RecursionError: a recursion that never reaches its base case
    | ZeroDivision                  // ZeroDivisionError
    | MissingAttribute              // AttributeError: a field read before anything assigned it
    | InhomogeneousShape            // ValueError raised by numpy.asarray on ragged rows
    | FileNotFound                  // FileNotFoundError raised by open() for reading
    | Unhashable                    // TypeError: a list used as a dictionary key
    | FormatArguments               // TypeError: too few arguments for a format string
    | UnboundName                   // UnboundLocalError: a local read before any branch assigned it

  datatype Result<T> = Ok(value: T) | Err(error: Error) {
    predicate IsFailure() { Err? }
    function PropagateFailure<U>(): Result<U>
      requires Err?
    {
      Err(error)
    }
    function Extract(): T
      requires Ok?
    {
      value
    }
  }

  datatype Outcome = Pass | Fail(error: Error) {
    predicate IsFailure() { Fail? }
    function PropagateFailure(): Outcome
      requires Fail?
    {
      this
    }
  }

  /** Python's `a - b` where either operand may have raised; the left one is evaluated first. */
  function Minus(a: Result<real>, b: Result<real>): Result<real> {
    if a.Err? then Err(a.error) else if b.Err? then Err(b.error) else Ok(a.value - b.value)
  }
}
