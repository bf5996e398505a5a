/** Failure-compatible result types shared by every module of the model. */
module Wrappers {

  datatype Option<+T> = None | Some(value: T)

  /** The two ways a call of the modelled code can fail: an `std::io::Error` of kind
      `UnexpectedEof` (a read past the end of a buffer), or a panic (a slice index out of
      range, an `unwrap` of an error). */
  datatype Error = UnexpectedEof | Panic

  datatype Result<+T> = Ok(value: T) | Err(error: Error) {
    predicate IsFailure() { Err? }

    function PropagateFailure<U>(): Result<U>
      requires Err?
    {
      Err(error)
    }

    function Extract(): T
      requires Ok?
    {
      value
    }
  }
}
