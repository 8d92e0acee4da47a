/** Enumerations shared by the operation state, the reply selectors and the
    silence monitors. */
module Kinds {

  /** `consultation_state["operation_type"]`: "rag" for a knowledge-base
      query, "appointment" for a scheduling request. */
  datatype OperationType = Rag | Appointment

  /** The entries the feedback ticker appends to `feedback_sent`. */
  datatype Stage = Initial | Processing | Patience

  /** The exceptions the tool calls catch around the backend call. */
  datatype Failure =
    | Cancelled    // asyncio.CancelledError
    | Timeout      // httpx.TimeoutException
    | HttpStatus   // httpx.HTTPStatusError
    | Unexpected   // any other Exception
}
