/** The one response an Express handler sends: a status and a body, which
    is either a JSON payload, a JSON `{error}` object, or the plain-text
    reason phrase that `res.sendStatus` writes. */
module Http {
  import opened Js

  datatype Body<+P> = Json(payload: P) | ErrorJson(error: string) | StatusText(text: string)

  datatype Response<+P> = Response(status: int, body: Body<P>)

  /** A handler either answers at once (input validation) or calls its
      service with the arguments it has put together. */
  datatype Dispatch<+A, +P> = Reply(response: Response<P>) | Call(args: A)

  const InternalErrorMessage := "Internal server error."

  /** The generic failure answer: 500 with "Internal server error.". */
  function InternalError<P>(): Response<P> {
    Response(500, ErrorJson(InternalErrorMessage))
  }

  /** `res.sendStatus(code)` for the codes this system sends. */
  function SendStatus<P>(code: int): (r: Response<P>)
    requires code == 401 || code == 403 || code == 404
    ensures r.status == code && r.body.StatusText?
    ensures code == 401 ==> r.body.text == "Unauthorized"
    ensures code == 403 ==> r.body.text == "Forbidden"
    ensures code == 404 ==> r.body.text == "Not Found"
  {
    Response(code, StatusText(if code == 401 then "Unauthorized" else if code == 403 then "Forbidden" else "Not Found"))
  }
}
