/**
 * The one rule of `registerAgent` kept here: the outcome of the HTTP POST
 * decides whether startup goes on.  Serialising the record and sending it
 * are not modelled; the exchange's outcome is an input.
 */
module Registration {
  import opened Wrappers

  /** `http.StatusOK`. */
  const StatusOK: int := 200

  /** What `http.Post` gave back: a transport error or a response with its status code. */
  datatype PostOutcome =
    | TransportError(cause: string)
    | Response(statusCode: int)

  datatype RegisterError =
    | SendFailed(cause: string)      // "failed to send registration"
    | BadStatus(statusCode: int)     // "registration failed with status"

  /** `registerAgent`'s verdict on the exchange. */
  function RegisterResult(outcome: PostOutcome): (r: Result<(), RegisterError>)
    ensures r.Success? <==> outcome.Response? && outcome.statusCode == StatusOK
    ensures outcome.TransportError? ==> r == Failure(SendFailed(outcome.cause))
    ensures outcome.Response? && outcome.statusCode != StatusOK ==> r == Failure(BadStatus(outcome.statusCode))
  {
    match outcome
    case TransportError(cause) => Failure(SendFailed(cause))
    case Response(code) => if code == StatusOK then Success(()) else Failure(BadStatus(code))
  }

  /** Only 200 is success: other 2xx codes such as 201 Created or 204 No Content abort startup. */
  lemma Only200Succeeds(code: int)
    requires 200 <= code < 300 && code != 200
    ensures RegisterResult(Response(code)) == Failure(BadStatus(code))
  {
  }
}
