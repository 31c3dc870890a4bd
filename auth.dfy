/**
 * The API-key gate: a request passes iff its `x-api-key` header equals the
 * configured key, both possibly `undefined`.
 */
module Auth {
  import opened Wrappers
  import opened Http

  /** `header` is `req.headers['x-api-key']`, `apiKey` is `process.env.API_KEY`. */
  function Authenticate(header: Option<string>, apiKey: Option<string>): (g: Gate)
    ensures g == Next <==> header == apiKey
    ensures g != Next ==> g == Reject(401, UnauthorizedMessage)
  {
    if header != apiKey then Reject(401, UnauthorizedMessage) else Next
  }

  /** A request without the header is refused whenever a key is configured. */
  lemma MissingHeaderRejected(apiKey: Option<string>)
    requires apiKey.Some?
    ensures Authenticate(None, apiKey) == Reject(401, UnauthorizedMessage)
  {
  }

  /** With no key configured, a request without the header passes (`undefined !== undefined` is false). */
  lemma NoKeyNoHeaderPasses()
    ensures Authenticate(None, None) == Next
  {
  }
}
