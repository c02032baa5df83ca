/** Option and Result values used for the adapter's undefined values and thrown errors. */
module Wrappers {

  datatype Option<+T> = None | Some(value: T)

  datatype Result<+R, +E> = Success(value: R) | Failure(error: E) {
    function ToOption(): Option<R>
    {
      if Success? then Some(value) else None
    }
  }
}
