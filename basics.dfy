/** Small value types shared by the event buses and the throttler. */
module Basics {

  /** A possibly-null Java reference: `None` stands for `null`. */
  datatype Option<T> = None | Some(value: T)

  /** A value or the reason it could not be produced. */
  datatype Result<T, E> = Success(value: T) | Failure(error: E)

  /** How a public operation ended: normally, or by throwing IllegalArgumentException. */
  datatype Status = Ok | IllegalArgument

  /**
   * What a consumer (a subscriber's handler or a throttler callback) does when it is called:
   * it returns, or it throws an exception that its caller catches and logs.
   */
  datatype HandlerResult = Completed | Threw
}
