/** Shared vocabulary of the Express request pipeline: optional values with
    JavaScript truthiness, the error object handed to `next(err)`, what a
    middleware does with the request, and what a route handler answers. */
module Http {

  datatype Option<+T> = None | Some(value: T)

  /** `if (x)` on a string-valued field: absent, `false`, `undefined` and `""` are falsy. */
  predicate Truthy(s: Option<string>)
  {
    s.Some? && s.value != ""
  }

  /** `if (x)` on a number-valued field: absent and `0` are falsy. */
  predicate TruthyNumber(n: Option<int>)
  {
    n.Some? && n.value != 0
  }

  /** An `Error` object with an optional `status` property, as passed to `next(err)`. */
  datatype HttpError = HttpError(status: Option<int>, message: string)

  function Failure(status: int, message: string): (e: HttpError)
    ensures e.status == Some(status) && e.message == message
  {
    HttpError(Some(status), message)
  }

  /** The single thing a middleware does with a request:
      `next()`, `next(err)`, ending the response itself (as Passport does
      when authentication fails), or throwing synchronously. */
  datatype Next =
    | Proceed
    | Pass(err: HttpError)
    | Halt(status: int, text: string)
    | Threw

  /** The single thing a route handler does: forward an error, send a JSON
      body, end the response with a plain text, or write nothing at all. */
  datatype Outcome<B> =
    | Forward(err: HttpError)
    | Reply(status: int, body: B)
    | Ended(status: int, text: string)
    | Silent

  /** A failed middleware ends the chain: its error is forwarded or its own
      response stands, and the handler behind it never runs. */
  function Stop<B>(n: Next): (o: Outcome<B>)
    requires n.Pass? || n.Halt?
    ensures n.Pass? ==> o == Forward(n.err)
    ensures n.Halt? ==> o == Ended(n.status, n.text)
  {
    match n
    case Pass(err) => Forward(err)
    case Halt(status, text) => Ended(status, text)
  }
}
