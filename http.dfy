/** The HTTP errors the server routers raise (FastAPI's HTTPException). */
module Http {
  import opened Wrappers

  /** An HTTPException: status code, `detail` text and an optional WWW-Authenticate header. */
  datatype HttpError = HttpError(status: int, detail: string, wwwAuthenticate: Option<string>)

  /** 404 "Todo not found", raised by every to-do lookup that matches no row of the caller. */
  const TodoNotFound: HttpError := HttpError(404, "Todo not found", None)

  /** The 500 FastAPI answers when a handler lets an exception escape. */
  const InternalServerError: HttpError := HttpError(500, "Internal Server Error", None)
}
