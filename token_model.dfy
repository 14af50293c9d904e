/**
  The values the token client exchanges with the outside: the access token it
  returns, the POST it hands to the HTTP transport, what the transport makes
  of it, and the two kinds of error a caller sees.
*/
module TokenModel {
  import opened Wrappers
  import opened JavaText

  /**
    The token record, one field per member of the token endpoint's JSON
    object; a member the response leaves out keeps the field null.
  */
  datatype AccessToken = AccessToken(
    accessToken: JString,
    refreshToken: JString,
    expiresIn: Option<int>,
    tokenType: JString,
    scope: JString)

  /** `new AccessToken()`: every field null. The client returns it when the endpoint does not answer 200. */
  const EmptyToken: AccessToken := AccessToken(None, None, None, None, None)

  /** A header name and value. */
  type Header = (string, string)

  /** A form field name and value; the value is whatever reference the caller passed. */
  type FormField = (string, JString)

  /** One POST: target URL, headers and form fields, each in insertion order. */
  datatype Request = Request(url: JString, headers: seq<Header>, form: seq<FormField>)

  /**
    What the transport makes of a request: either it throws (connection
    failure, or an error status its error handler turns into an exception),
    or it returns a status code and a body.
  */
  datatype Exchange = TransportFailure(reason: string) | Response(status: int, body: string)

  /** `HttpStatus.OK`. */
  const StatusOk: int := 200

  /**
    What a caller sees thrown: a `ConfigurationException` (with the message
    of the exception it wraps, if any); an unchecked exception from loading
    the configuration that the client does not catch; or an exception from
    the transport, which the client lets through.
  */
  datatype ClientError =
    | ConfigurationError(message: string, cause: Option<string>)
    | UncaughtException(reason: string)
    | TransportError(reason: string)
}
