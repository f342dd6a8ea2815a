/** Option and result types shared by the model. */
module Wrappers {

  datatype Option<+T> = None | Some(value: T)

  /** The exceptions of the .NET source that the model keeps as values. */
  datatype Error =
    | ArgumentOutOfRange   // ArgumentOutOfRangeException
    | DestinationTooShort  // ArgumentException thrown by Span<T>.CopyTo
    | InvalidOperation     // InvalidOperationException

  datatype Result<+T> = Ok(value: T) | Err(error: Error)

  /** The outcome of a method that returns nothing or throws. */
  datatype Outcome = Pass | Fail(error: Error)

  function Min(a: int, b: int): int { if a < b then a else b }

  /**
   * The element-count clamp shared by the queues' array-returning
   * `Peek`/`Dequeue` and the block copies: a negative count means as many as
   * are available, anything else is capped at what is available.
   */
  function RequestedCount(elementCount: int, available: nat): (r: nat)
    ensures r <= available
    ensures elementCount < 0 || elementCount >= available ==> r == available
    ensures 0 <= elementCount <= available ==> r == elementCount
  {
    if elementCount < 0 then available
    else if elementCount < available then elementCount else available
  }
}
