/**
 * What a route hands back to the browser: a redirect (with what it does to
 * the `sessionId` cookie) or a status code with a body. An uncaught
 * exception in a handler becomes a 500 reply and commits nothing further.
 */
module Http {

  import opened Wrappers
  import Store

  const OK: int := 200
  const Created: int := 201
  const Found: int := 302
  /** The status `RedirectResponse` uses when none is given. */
  const TemporaryRedirect: int := 307
  const BadRequest: int := 400
  const Unauthorized: int := 401
  const NotFound: int := 404
  const Conflict: int := 409
  const UnprocessableEntity: int := 422
  const InternalServerError: int := 500

  /** The parts of an incoming request the routes read. */
  datatype Request = Request(sessionCookie: Option<string>)

  datatype Cookie = KeepCookie | SetSessionCookie(id: string) | DeleteSessionCookie

  datatype Body =
    | Message(text: string)
    | SensorJson(id: int, sensor: Store.Sensor)
    | SensorListJson(rows: seq<(int, Store.Sensor)>)
    | ClothesJson(id: int, clothes: Store.Clothes)
    | ClothesListJson(items: seq<(int, Store.Clothes)>)
    | UserJson(id: int, user: Store.User)
    | IdJson(id: int)
    /** An HTML file, with `{username}` filled in when a name is given. */
    | Document(file: string, username: Option<string>)

  datatype Response =
    | Redirect(location: string, status: int, cookie: Cookie)
    | Reply(status: int, body: Body)
  {
    predicate IsError() {
      Reply? && status >= 400
    }
  }

  /** A response together with the store as the request left it. */
  datatype Outcome = Outcome(response: Response, db: Store.Db)

  /** An `HTTPException`, or a plain response with an error status. */
  function Fail(status: int, text: string): (r: Response)
    ensures r.Reply? && r.status == status
  {
    Reply(status, Message(text))
  }

  /** What the server answers when a handler raises. */
  function Crash(): (r: Response)
    ensures r.IsError() && r.status == InternalServerError
  {
    Fail(InternalServerError, "Internal Server Error")
  }
}
