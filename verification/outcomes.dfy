/**
  Results of the route handlers. Every handler either succeeds with a new
  store (or a read-only view) or fails with one of the error kinds the routes
  answer with. A failed handler leaves the store as it was: the caller keeps
  the store it passed in.
 */
module Outcomes {

  datatype Option<+T> = None | Some(value: T)

  /** The HTTP answers of the routes, reduced to their kind and message:
      404 NotFound, 400 BadRequest, 403 Forbidden; `RoleDenied` is the answer
      of the role middleware, and `ServerError` is every 500 (validation
      errors of a save, duplicate keys outside add-lesson, thrown TypeErrors). */
  datatype Error =
    | NotFound(message: string)
    | BadRequest(message: string)
    | Forbidden(message: string)
    | RoleDenied
    | ServerError

  datatype Result<+T> = Ok(value: T) | Err(error: Error)
}
