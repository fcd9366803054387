/**
 * Responses of the HTTP layer: a status code of section 15 of RFC 9110 and a body, or a
 * service exception that no catch clause handled (the framework, not the controller,
 * would answer then).
 */
module Http {
  import opened ServiceException

  /** 200 OK, section 15.3.1 of RFC 9110. */
  const OK: int := 200
  /** 201 Created, section 15.3.2 of RFC 9110. */
  const CREATED: int := 201
  /** 204 No Content, section 15.3.5 of RFC 9110. */
  const NO_CONTENT: int := 204
  /** 400 Bad Request, section 15.5.1 of RFC 9110. */
  const BAD_REQUEST: int := 400
  /** 404 Not Found, section 15.5.5 of RFC 9110. */
  const NOT_FOUND: int := 404

  /** The serialized entities, the JSON object `{"error": message}`, or nothing at all. */
  datatype Body<+P> = Serialized(payload: P) | ErrorJson(message: string) | Empty

  datatype Response<+P> = Response(status: int, body: Body<P>) | Escaped(exception: ServiceError)

  /**
   * A service call inside one try block: its value serialized with status `success`, an
   * exception of kind `caught` turned into an error body with status `failure`, and any
   * other exception left to escape.
   */
  function Respond<T>(r: Result<T>, success: int, caught: Kind, failure: int): (resp: Response<T>)
    ensures resp.Escaped? <==> r.Err? && r.error.kind != caught
    ensures resp.Escaped? ==> resp.exception == r.error
    ensures r.Ok? ==> resp.Response? && resp.status == success && resp.body.Serialized?
                      && resp.body.payload == r.value
    ensures r.Err? && r.error.kind == caught ==>
              resp.Response? && resp.status == failure && resp.body.ErrorJson?
              && resp.body.message == r.error.Message()
  {
    match r
    case Ok(v) => Response(success, Serialized(v))
    case Err(e) =>
      if e.kind == caught then Response(failure, ErrorJson(e.Message())) else Escaped(e)
  }
}
