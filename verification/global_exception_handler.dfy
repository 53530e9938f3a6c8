/** GlobalExceptionHandler: turns a ProductValidationException into a failure
    envelope carried with the exception's own HTTP status. */
module ExceptionHandling {
  import opened Common
  import opened Responses
  import Catalog

  /** handleProductValidationException. Only ProductValidationException is
      handled here (None for any other exception: it reaches Spring's default
      handling). A ProductValidationException without a status has no status
      value to read, so it yields no envelope either. */
  function HandleProductValidationException(ex: Raised): (r: Option<ResponseEntity<GenericResponse<()>>>)
    ensures r.Some? <==> ex.kind == ProductValidation && ex.status.Some?
    ensures r.Some? ==> r.value.httpStatus == ex.status.value
    ensures r.Some? ==> r.value.body == GenericResponse(ex.status.value, false, ex.message, None)
  {
    if ex.kind == ProductValidation && ex.status.Some? then
      Some(ResponseEntity(ex.status.value, GenericResponse(ex.status.value, false, ex.message, None)))
    else None
  }

  /** Every exception the product service throws is translated into an
      envelope that meets the declared bounds, with success false, no data,
      the exception's message, and the same status in the envelope and in the
      HTTP response. */
  lemma ServiceFailuresTranslated<T>(o: Catalog.Outcome<T>)
    requires o.Failure? && Catalog.WellFormedOutcome(o)
    ensures HandleProductValidationException(o.error).Some?
    ensures var resp := HandleProductValidationException(o.error).value;
      && resp.body.WellFormed()
      && !resp.body.success && resp.body.data.None?
      && resp.body.message == o.error.message
      && resp.httpStatus == resp.body.status == o.error.status.value
  {
  }
}
