/** The results the controllers answer with (ASP.NET Core `ActionResult`). */
module Http {
  datatype ActionResult<+T> =
    | Ok(value: T)                                      // 200 with a body
    | Created(routeId: int, routeUserId: int, value: T) // 201 from CreatedAtAction, with the route of the GET
    | NoContent                                         // 204
    | NotFound(message: string)                         // 404 with a text body
    | BadRequest(message: string)                       // 400 with a text body
    | InvalidModel                                      // 400 with the model-state errors
    | Unauthorized(message: string)                     // 401 with a text body
}
