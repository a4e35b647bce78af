/** Failure-carrying results for the operations that raise in topomult.py
    (numpy index errors, shape mismatches). */
module Results {

  /** The exceptions the line sweep can raise. */
  datatype Error =
    | IndexOutOfRange(index: nat)              // data[path] / Mhdata[path] with a bad index
    | LengthMismatch(expected: nat, actual: nat) // multiplier line not as long as its path
    | ReshapeError(size: nat, rows: nat, cols: nat) // buffer cannot be reshaped to (nc, nr)

  datatype Result<+T> = Ok(value: T) | Err(error: Error) {

    predicate IsFailure() {
      Err?
    }

    function PropagateFailure<U>(): Result<U>
      requires Err?
    {
      Err(error)
    }

    function Extract(): T
      requires Ok?
    {
      value
    }
  }
}
