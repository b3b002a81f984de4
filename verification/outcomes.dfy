/** Optional values and exception-carrying results shared by every module.

    The build pipeline is Python code: a missing value is `None` and a failure
    is a raised exception. Both are modelled as plain data here so that every
    error path of the source is a value the contracts can talk about. */
module Outcomes {

  datatype Option<+T> = None | Some(value: T) {
    predicate IsFailure() { None? }

    function PropagateFailure<U>(): Option<U>
      requires None?
    {
      None
    }

    function Extract(): T
      requires Some?
    {
      value
    }
  }

  /** The exception kinds the modelled code can raise. */
  datatype Error =
    | BuildException(message: string)     // doc_builder.constants.BuildException
    | NameError(name: string)              // a global that was never imported
    | UnboundLocalError(name: string)      // a local read before any assignment
    | TypeError(operation: string)         // e.g. os.chdir(None), a keyword passed twice
    | OSError(path: string)                // a filesystem call on a bad path
    | IOError(path: string)                // open() of a file that cannot be created
    | AttributeError(name: string)         // a missing attribute, or a string method called on None

  /** Either a returned value or a raised exception. */
  datatype Result<+T> = Ok(value: T) | Raised(error: Error) {
    predicate IsFailure() { Raised? }

    function PropagateFailure<U>(): Result<U>
      requires Raised?
    {
      Raised(error)
    }

    function Extract(): T
      requires Ok?
    {
      value
    }
  }

  /** A call such as `os.chdir(None)` that rejects an unset path attribute
      with TypeError. */
  function Required<T>(o: Option<T>, operation: string): (r: Result<T>)
    ensures r.Ok? <==> o.Some?
    ensures r.Ok? ==> r.value == o.value
  {
    match o
    case Some(v) => Ok(v)
    case None => Raised(TypeError(operation))
  }
}
