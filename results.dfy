/** The error outcomes of the Python utilities, as values.

    A Python exception raised by an operation becomes `Err(e)`; a normal
    return becomes `Ok(v)`. `OutOfFuel` is not a Python exception: it is
    returned by the one model that bounds an iteration the source leaves
    unbounded (see module Multibatch). */
module Results {

  datatype Error =
    | IndexError
    | ValueError
    | TypeError
    | ZeroDivisionError
    | KeyError
    | UnboundLocalError
    | AttributeError
    | OutOfFuel

  datatype Result<+T> = Ok(value: T) | Err(error: Error)

  /** Python's `None` for an optional value, and NaN for a metric. */
  datatype Option<+T> = None | Some(value: T)
}
