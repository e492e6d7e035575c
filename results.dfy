/** Outcomes of the hotel service: a value, or one of the errors the service raises. */
module Results {

  /** The failures a call can end with.
      NotFound and PaymentRequired are the service's two domain errors;
      NullTicketType is the runtime TypeError raised when a paid ticket
      references a ticket type that the store does not hold. */
  datatype Error = NotFound | PaymentRequired | NullTicketType

  /** A failure-compatible result, so that the service can be written with `:-`. */
  datatype Result<+T> = Ok(value: T) | Fail(error: Error) {

    predicate IsFailure() {
      Fail?
    }

    function PropagateFailure<U>(): Result<U>
      requires Fail?
    {
      Fail(error)
    }

    function Extract(): T
      requires Ok?
    {
      value
    }
  }
}
