/** What a middleware or controller does with the request it is given. */
module Http {

  datatype Outcome =
    | Next                            // `next()` is called, once
    | Unauthorized(message: string)   // `ctx.unauthorized(message)`: 401, `next` not called
    | Forbidden(message: string)      // `ctx.forbidden(message)`: 403, `next` not called
    | BadRequest(message: string)     // `ctx.badRequest(message)`: 400
    | Received                        // `ctx.send({ received: true })`
    | ServerError                     // an uncaught rejection, answered by the host with 500
}
