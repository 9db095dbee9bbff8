/** Small value types shared by every module of the model: bytes, an optional
    value, and the outcome of an operation that can fail. */
module Types {

  /** One octet on the wire. */
  type Byte = b: int | 0 <= b < 256

  /** Python's `None` / a present value. */
  datatype Option<T> = None | Some(value: T)

  /** The value an operation returns, or the exception it raises instead. */
  datatype Result<T, E> = Success(value: T) | Failure(error: E)
}
