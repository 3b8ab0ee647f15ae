/** What a handler sends back: a status code and a JSON body. */
module Http {
  import opened Documents

  const Ok := 200
  const Created := 201
  const BadRequest := 400
  const Unauthorized := 401
  const NotFound := 404
  const ServerError := 500

  datatype Body =
    | Stored(id: Id, doc: Doc)                 // a stored document, `_id` included
    | Fields(doc: Doc)                         // a plain object built by the handler
    | Error(error: string)                     // `{ error: ... }`
    | Message(message: string)                 // `{ message: ... }`
    | Failure(message: string, error: string)  // `{ message: ..., error }`

  datatype Response = Response(status: int, body: Body)
}
