/** Failure-carrying results: the exceptions the C# code throws become `Err` values. */
module Wrappers {

  /** The .NET exceptions the modelled code can raise. */
  datatype Error =
    | ArgumentOutOfRange   // ArgumentOutOfRangeException, also List<T> indexing past its end
    | IndexOutOfRange      // IndexOutOfRangeException from an array access
    | NullReference        // NullReferenceException
    | InvalidEnumArgument  // InvalidEnumArgumentException
    | InvalidArgument      // ArgumentException, as new Bitmap throws for a size below 1

  datatype Option<+T> = None | Some(value: T)

  /** The completion of an operation that returns nothing: normal, or by an exception. */
  datatype Outcome = Pass | Fail(error: Error)

  datatype Result<+T> = Ok(value: T) | Err(error: Error) {
    predicate IsFailure() { Err? }
    function PropagateFailure<U>(): Result<U>
      requires Err?
    {
      Err(error)
    }
    function Extract(): T
      requires Ok?
    {
      value
    }
  }
}
