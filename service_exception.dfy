/**
 * The two exception kinds the services throw (src/Service/Exception): ResourceNotFound for
 * a missing target of the request, SubresourceNotFound for a missing entity it refers to.
 */
module ServiceException {

  datatype Kind = ResourceNotFound | SubresourceNotFound

  /** An exception: its kind and the detail given where it is thrown ("User not found"). */
  datatype ServiceError = ServiceError(kind: Kind, detail: string) {
    /** The exception's message: the kind's fixed prefix, then the detail. */
    function Message(): string {
      Prefix(kind) + detail
    }
  }

  function Prefix(k: Kind): string {
    match k
    case ResourceNotFound => "Resource not found: "
    case SubresourceNotFound => "Subresource not found: "
  }

  /** A service call either returns a value or throws one of the two exceptions. */
  datatype Result<+T> = Ok(value: T) | Err(error: ServiceError)

  /**
   * The message alone tells the exception apart: two messages are equal exactly when the
   * kinds and the details are, so an `{"error": msg}` body determines what was thrown.
   */
  lemma MessageDetermines(a: ServiceError, b: ServiceError)
    ensures a.Message() == b.Message() <==> a == b
  {
    if a.kind == b.kind {
      var n := |Prefix(a.kind)|;
      assert a.detail == a.Message()[n..];
      assert b.detail == b.Message()[n..];
    } else {
      assert a.Message()[0] != b.Message()[0];
    }
  }
}
