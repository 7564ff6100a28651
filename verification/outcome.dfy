/** Failure-aware return types shared by every visualizer.
    The Kotlin source signals its error conditions with exceptions; here each
    exception becomes an `Err` carrying the kind of fault that was raised. */
module Outcome {

  /** The exceptions the modelled code can raise. */
  datatype Fault =
    | IndexOutOfRange   // ArrayIndexOutOfBoundsException
    | IllegalArgument   // IllegalArgumentException (require, a non-positive loop step)
    | NegativeArraySize // NegativeArraySizeException

  datatype Result<+T> = Ok(value: T) | Err(fault: Fault)

  /** Kotlin's nullable reference `T?`. */
  datatype Option<+T> = None | Some(value: T)
}
