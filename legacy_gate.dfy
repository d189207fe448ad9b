/** The legacy gate every request passes before routing (`auth` in app.js):
    a signed `user` cookie marking the single built-in principal, falling
    back to HTTP Basic credentials compared against one hardcoded pair.
    Cookie signing and base64 decoding are outside the model: the cookie
    arrives as "a truthy string, or nothing" and decoding is a parameter. */
module LegacyGate {
  import opened Http
  import opened Sequences

  const AdminName := "admin"
  const AdminPassword := "password"
  const NotAuthenticated := "You are not authenticated!"

  /** `req.signedCookies.user` (a bad signature reads as falsy) and `req.headers.authorization`. */
  datatype Request = Request(signedUser: Option<string>, authorization: Option<string>)

  /** The one `next` call, whether `WWW-Authenticate: Basic` was set, and the signed cookie set, if any. */
  datatype GateOutcome = GateOutcome(next: Next, challenge: bool, setCookie: Option<string>)

  function Rejection(): HttpError
  {
    Failure(401, NotAuthenticated)
  }

  /** `authHeader.split(" ")[1]`: the second space-separated field, whatever the scheme before it. */
  function EncodedCredentials(header: string): Option<string>
  {
    Field(Split(header, ' '), 1)
  }

  /** `split(":")` on the decoded text, then `auth[0] === "admin" && auth[1] === "password"`. */
  predicate CredentialsMatch(decoded: string)
  {
    var fields := Split(decoded, ':');
    Field(fields, 0) == Some(AdminName) && Field(fields, 1) == Some(AdminPassword)
  }

  /** The gate's decision, with the comparison of decoded credentials as a parameter. */
  function Gate(req: Request, decode: string -> string, matches: string -> bool): (out: GateOutcome)
    ensures out.next.Proceed? || out.next == Pass(Rejection()) || out.next.Threw?
    ensures out.challenge ==> out.next == Pass(Rejection()) && !Truthy(req.signedUser)
    ensures out.setCookie.Some? ==> out.setCookie == Some(AdminName) && out.next.Proceed? && !Truthy(req.signedUser)
    ensures out.next.Threw? ==> !Truthy(req.signedUser) && Truthy(req.authorization) && ' ' !in req.authorization.value
    ensures Truthy(req.signedUser) ==> !out.challenge && out.setCookie.None? &&
                                       (out.next.Proceed? <==> req.signedUser.value == AdminName)
  {
    if !Truthy(req.signedUser) then
      if !Truthy(req.authorization) then
        GateOutcome(Pass(Rejection()), true, None)
      else
        var header := req.authorization.value;
        match EncodedCredentials(header)
        case None =>
          SeparatorIffSeveralPieces(header, ' ');
          GateOutcome(Threw, false, None)
        case Some(encoded) =>
          if matches(decode(encoded)) then GateOutcome(Proceed, false, Some(AdminName))
          else GateOutcome(Pass(Rejection()), true, None)
    else if req.signedUser.value == AdminName then
      GateOutcome(Proceed, false, None)
    else
      GateOutcome(Pass(Rejection()), false, None)
  }

  /** The gate as written: every `:`-separated field is split off. */
  function Auth(req: Request, decode: string -> string): (out: GateOutcome)
    ensures out.next.Pass? ==> out.next.err.status == Some(401)
    ensures out.challenge ==> out.next.Pass?
    ensures out.setCookie.Some? ==> out.next.Proceed?
  {
    Gate(req, decode, CredentialsMatch)
  }

  /** Without a truthy cookie and without a header: 401 with the Basic challenge. */
  lemma NoCredentialsChallenged(req: Request, decode: string -> string)
    requires !Truthy(req.signedUser) && !Truthy(req.authorization)
    ensures Auth(req, decode) == GateOutcome(Pass(Rejection()), true, None)
  {
  }

  /** `authHeader.split(" ")[1]` picks the token after the first space, whatever the scheme word is. */
  lemma {:induction false} SecondFieldOfHeader(scheme: string, encoded: string, rest: string)
    requires ' ' !in scheme && ' ' !in encoded
    requires rest == [] || rest[0] == ' '
    ensures EncodedCredentials(scheme + " " + encoded + rest) == Some(encoded)
  {
    assert scheme + " " + encoded + rest == scheme + [' '] + (encoded + rest);
    SplitAfterPrefix(scheme, ' ', encoded + rest);
    if rest == [] {
      assert encoded + rest == encoded;
      SplitWithoutSeparator(encoded, ' ');
    } else {
      assert encoded + rest == encoded + [' '] + rest[1..];
      SplitAfterPrefix(encoded, ' ', rest[1..]);
    }
  }

  /** A header with no space has no second field: the base64 decoder receives
      `undefined` and throws, rather than answering 401. */
  lemma MalformedHeaderThrows(req: Request, decode: string -> string, matches: string -> bool)
    requires !Truthy(req.signedUser) && Truthy(req.authorization)
    requires ' ' !in req.authorization.value
    ensures Gate(req, decode, matches) == GateOutcome(Threw, false, None)
  {
    SplitWithoutSeparator(req.authorization.value, ' ');
  }

  /** Decoded text of the shape `admin:password[:...]` passes the field comparison. */
  lemma {:induction false} AdminShapeMatches(decoded: string)
    requires decoded == "admin:password" || "admin:password:" <= decoded
    ensures CredentialsMatch(decoded)
  {
    if decoded == "admin:password" {
      assert decoded == AdminName + [':'] + AdminPassword;
      SplitAfterPrefix(AdminName, ':', AdminPassword);
      SplitWithoutSeparator(AdminPassword, ':');
    } else {
      var tail := decoded[|"admin:password:"|..];
      assert decoded == AdminName + [':'] + (AdminPassword + [':'] + tail);
      SplitAfterPrefix(AdminName, ':', AdminPassword + [':'] + tail);
      SplitAfterPrefix(AdminPassword, ':', tail);
    }
  }

  /** Decoded text passing the field comparison has the shape `admin:password[:...]`. */
  lemma {:induction false} MatchHasAdminShape(decoded: string)
    requires CredentialsMatch(decoded)
    ensures decoded == "admin:password" || "admin:password:" <= decoded
  {
    var fields := Split(decoded, ':');
    var after := Join(fields[1..], ':');
    assert decoded == AdminName + [':'] + after;
    if |fields| == 2 {
      assert after == AdminPassword;
    } else {
      assert fields[1..][1..] == fields[2..];
      assert after == AdminPassword + [':'] + Join(fields[2..], ':');
      assert decoded == "admin:password:" + Join(fields[2..], ':');
    }
  }

  /** Only fields 0 and 1 are compared: the decoded text matches exactly when
      it is `admin:password`, possibly followed by `:` and anything at all. */
  lemma CredentialsMatchIff(decoded: string)
    ensures CredentialsMatch(decoded) <==>
            decoded == "admin:password" || "admin:password:" <= decoded
  {
    if CredentialsMatch(decoded) {
      MatchHasAdminShape(decoded);
    }
    if decoded == "admin:password" || "admin:password:" <= decoded {
      AdminShapeMatches(decoded);
    }
  }

  /** The Basic branch for a well-formed header: the request proceeds with the
      signed cookie `user=admin` exactly when the credentials match, and is
      otherwise refused with 401 and the challenge, setting no cookie. */
  lemma BasicBranch(cookie: Option<string>, scheme: string, encoded: string, rest: string,
                    decode: string -> string)
    requires !Truthy(cookie)
    requires ' ' !in scheme && ' ' !in encoded
    requires rest == [] || rest[0] == ' '
    ensures var out := Auth(Request(cookie, Some(scheme + " " + encoded + rest)), decode);
            var d := decode(encoded);
            if d == "admin:password" || "admin:password:" <= d
            then out == GateOutcome(Proceed, false, Some(AdminName))
            else out == GateOutcome(Pass(Rejection()), true, None)
  {
    SecondFieldOfHeader(scheme, encoded, rest);
    CredentialsMatchIff(decode(encoded));
  }

  /** A third field is ignored: `admin:password:extra` is accepted as written. */
  lemma ExtraFieldAccepted(cookie: Option<string>, encoded: string, decode: string -> string)
    requires !Truthy(cookie) && ' ' !in encoded
    requires decode(encoded) == "admin:password:extra"
    ensures Auth(Request(cookie, Some("Basic " + encoded)), decode).next == Proceed
  {
    assert "Basic " + encoded == "Basic" + " " + encoded + [];
    BasicBranch(cookie, "Basic", encoded, [], decode);
  }

  /** A signed cookie equal to `admin` admits the request whatever the header
      says, and no new cookie or challenge is written. */
  lemma AdminCookieAdmits(header: Option<string>, decode: string -> string)
    ensures Auth(Request(Some(AdminName), header), decode) == GateOutcome(Proceed, false, None)
  {
  }

  /** Any other truthy signed cookie is refused with 401 and no challenge. */
  lemma OtherCookieRefused(cookie: string, header: Option<string>, decode: string -> string)
    requires cookie != "" && cookie != AdminName
    ensures Auth(Request(Some(cookie), header), decode) == GateOutcome(Pass(Rejection()), false, None)
  {
  }

  /** The cookie written by a successful Basic login admits the next request on its own. */
  lemma CookieCarriesLogin(first: Request, header: Option<string>, decode: string -> string)
    requires Auth(first, decode).setCookie.Some?
    ensures Auth(Request(Auth(first, decode).setCookie, header), decode).next == Proceed
  {
  }

  // ----- The credential comparison of section 2 of RFC 7617 -----

  /** The user-id ends at the first colon; the password is everything after it. */
  predicate CredentialsMatchRfc7617(decoded: string)
  {
    SplitFirst(decoded, ':') == Some((AdminName, AdminPassword))
  }

  /** The corrected gate: the same decision with RFC 7617 parsing of the credentials. */
  function AuthRfc7617(req: Request, decode: string -> string): (out: GateOutcome)
    ensures out.next.Pass? ==> out.next.err.status == Some(401)
    ensures out.setCookie.Some? ==> out.next.Proceed?
  {
    Gate(req, decode, CredentialsMatchRfc7617)
  }

  /** With RFC 7617 parsing exactly the pair `admin`/`password` matches. */
  lemma CredentialsMatchRfc7617Iff(decoded: string)
    ensures CredentialsMatchRfc7617(decoded) <==> decoded == "admin:password"
  {
    if decoded == "admin:password" {
      assert decoded == AdminName + [':'] + AdminPassword;
      SplitFirstUnique(AdminName, ':', AdminPassword);
    }
  }

  /** The corrected gate refuses the text the written gate lets through. */
  lemma ExtraFieldRefusedRfc7617(cookie: Option<string>, encoded: string, decode: string -> string)
    requires !Truthy(cookie) && ' ' !in encoded
    requires decode(encoded) == "admin:password:extra"
    ensures AuthRfc7617(Request(cookie, Some("Basic " + encoded)), decode) ==
            GateOutcome(Pass(Rejection()), true, None)
  {
    assert "Basic " + encoded == "Basic" + [' '] + encoded;
    SplitAfterPrefix("Basic", ' ', encoded);
    SplitWithoutSeparator(encoded, ' ');
    CredentialsMatchRfc7617Iff(decode(encoded));
  }

  /** The two gates decide alike except on decoded credentials carrying extra fields. */
  lemma GatesDifferOnlyOnExtraFields(req: Request, decode: string -> string)
    ensures Auth(req, decode) != AuthRfc7617(req, decode) ==>
            !Truthy(req.signedUser) && Truthy(req.authorization) &&
            var enc := EncodedCredentials(req.authorization.value);
            enc.Some? && "admin:password:" <= decode(enc.value)
  {
    if !Truthy(req.signedUser) && Truthy(req.authorization) {
      var enc := EncodedCredentials(req.authorization.value);
      if enc.Some? {
        CredentialsMatchIff(decode(enc.value));
        CredentialsMatchRfc7617Iff(decode(enc.value));
      }
    }
  }
}
