/** What a handler's decision amounts to on the wire: a status code, or no answer at all. */
module Http {

  const OK: int := 200
  const CREATED: int := 201
  const BAD_REQUEST: int := 400
  const NOT_FOUND: int := 404
  const METHOD_NOT_ALLOWED: int := 405

  /**
   * `Status(code)` when the handler calls `sendResponseHeaders(code, ...)`;
   * `Aborted` when an exception escapes the handler before any status is sent.
   */
  datatype Outcome = Status(code: int) | Aborted
}
