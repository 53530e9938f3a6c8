/** The response envelope every service operation returns, and the HTTP
    response that carries it. */
module Responses {
  import opened Common

  /** GenericResponse: status code, success flag, message and optional payload
      (None stands for a null `data`). The record's constructor checks nothing. */
  datatype GenericResponse<+T> = GenericResponse(status: int, success: bool, message: string, data: Option<T>)
  {
    /** The declared bean-validation bounds: @Min(100) @Max(599) on the status
        and @NotBlank on the message. */
    predicate WellFormed()
    {
      100 <= status <= 599 && !IsBlank(message)
    }
  }

  /** A Spring ResponseEntity: the HTTP status line and the body. */
  datatype ResponseEntity<+T> = ResponseEntity(httpStatus: int, body: T)

  /** An envelope whose status is in range and whose message opens with a
      visible character meets the declared bounds, whatever its flag and data. */
  lemma WellFormedWhen<T>(e: GenericResponse<T>)
    requires 100 <= e.status <= 599
    requires |e.message| > 0 && !IsWhitespace(e.message[0])
    ensures e.WellFormed()
  {
    VisibleHeadNotBlank(e.message);
  }
}
