/** Explicit error results that replace the exceptions and string sentinels of AIP.py. */
module Outcomes {

  /** The ways a run, or one of its steps, can fail. */
  datatype Error =
    | DateNotFound      // no series date on or after the requested date (pandas IndexError)
    | InvalidDate       // a date string that the 'YYYY-MM-DD' slices cannot read (ValueError)
    | DateOutOfRange    // a date outside the years 1..9999 of Python's `date` (OverflowError/ValueError)
    | InvalidMove       // an unrecognised contribution period (the "error! check the move variable!!!" sentinel)
    | InvalidFunction   // an unrecognised rate selector (the "error!!!, check your function parameter" sentinel)
    | DivisionByZero    // a zero divisor: moving average 0 in adjust_rate, or zero total money in the return
    | MathDomain        // logarithm of a non-positive base rate (math.log ValueError)
    | UndefinedMean     // the mean of an empty moving-average window (NaN in pandas)
    | EmptySlice        // no series row in the final settlement slice (IndexError on tail(1))

  datatype Option<+T> = None | Some(value: T)

  /** A value or the error that prevented it; usable with `:-`. */
  datatype Result<+T> = Ok(value: T) | Err(error: Error) {

    predicate IsFailure() {
      Err?
    }

    function PropagateFailure<U>(): Result<U>
      requires Err?
    {
      Err(error)
    }

    function Extract(): T
      requires Ok?
    {
      value
    }
  }
}
