/** The application pipeline around the routers: the legacy gate runs before
    every router, an unmatched path becomes a 404 error, and the final error
    handler answers with the error's status, or 500 when it carries none. */
module App {
  import opened Http
  import LegacyGate

  /** `createError(404)`. */
  function NotFound(): HttpError
  {
    Failure(404, "Not Found")
  }

  /** `res.status(err.status || 500)`: a missing or zero status counts as 500. */
  function ErrorStatus(err: HttpError): (status: int)
    ensures TruthyNumber(err.status) ==> status == err.status.value
    ensures !TruthyNumber(err.status) ==> status == 500
  {
    if TruthyNumber(err.status) then err.status.value else 500
  }

  /** What the routers mounted after the gate did with an admitted request. */
  datatype Routed = Handled(status: int) | Errored(err: HttpError) | Unmatched

  /** The status the client finally sees, given the gate's decision and, when
      the gate admits the request, what routing made of it. A synchronous
      throw in the gate reaches the error handler as an error with no status. */
  function FinalStatus(gate: Next, routed: Routed): (status: int)
    ensures gate.Pass? ==> status == ErrorStatus(gate.err)
    ensures gate.Threw? ==> status == 500
    ensures gate.Proceed? && routed.Unmatched? ==> status == 404
    ensures gate.Proceed? && routed.Handled? ==> status == routed.status
    ensures gate.Proceed? && routed.Errored? ==> status == ErrorStatus(routed.err)
    ensures gate.Halt? ==> status == gate.status
  {
    match gate
    case Proceed =>
      (match routed
       case Handled(s) => s
       case Errored(e) => ErrorStatus(e)
       case Unmatched => ErrorStatus(NotFound()))
    case Pass(e) => ErrorStatus(e)
    case Halt(s, _) => s
    case Threw => 500
  }

  /** A request refused by the gate never reaches a router: the client sees 401
      whatever the route would have answered. This holds for the gate as
      written and for the RFC 7617 variant alike. */
  lemma GateRefusalIs401(req: LegacyGate.Request, decode: string -> string,
                         matches: string -> bool, routed: Routed)
    requires LegacyGate.Gate(req, decode, matches).next.Pass?
    ensures FinalStatus(LegacyGate.Gate(req, decode, matches).next, routed) == 401
  {
  }

  /** An Authorization header with no space ends in 500, not 401. */
  lemma MalformedHeaderIs500(req: LegacyGate.Request, decode: string -> string,
                             matches: string -> bool, routed: Routed)
    requires !Truthy(req.signedUser) && Truthy(req.authorization)
    requires ' ' !in req.authorization.value
    ensures FinalStatus(LegacyGate.Gate(req, decode, matches).next, routed) == 500
  {
    LegacyGate.MalformedHeaderThrows(req, decode, matches);
  }
}
