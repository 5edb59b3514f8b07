/** The Python exceptions raised by the modelled code, and a result type for
    operations that either succeed or raise one of them. */
module Errors {

  /** IndexError: a position outside the accepted range (numpy and list indexing).
      KeyError: a layer id missing from the id -> path map.
      ValueError: a reduction (`min`/`max`) over an empty numpy array. */
  datatype Fault = IndexError | KeyError | ValueError

  datatype Result<T> = Ok(value: T) | Err(fault: Fault)
}
