/**
 * The token handling of the client service's `AuthController`: extracting the bearer token
 * from the `Authorization` header, logging out (revoking the token), reporting a token's
 * status, and the email-availability query. The JWT library is opaque: whether it accepts a
 * token (signature and expiry), the subject it reads and the expiry it reads are functions
 * given to the controller; the blacklist check of `JwtUtils.validateJwtToken` is modelled.
 */
module AuthController {
  import opened Wrappers
  import opened Blacklist
  import AuthService

  const BEARER_PREFIX: string := "Bearer "

  /** One day in the unit of the blacklist's instants (seconds). */
  const ONE_DAY: int := 86400

  /** The characters `Character.isWhitespace` accepts in the ASCII range. */
  predicate IsWhitespace(c: char) {
    c == ' ' || c == '\t' || c == '\n' || c == '\r' || c == '\U{000B}' || c == '\U{000C}'
    || ('\U{001C}' <= c <= '\U{001F}')
  }

  /** `StringUtils.hasText`: at least one character that is not whitespace. */
  predicate HasText(s: string) {
    exists i | 0 <= i < |s| :: !IsWhitespace(s[i])
  }

  predicate StartsWith(s: string, prefix: string) {
    |prefix| <= |s| && s[..|prefix|] == prefix
  }

  /**
   * `parseJwtFromRequest`: the text after `Bearer ` when the header is present, has text
   * and starts with that prefix; `None` (null) otherwise.
   */
  function ParseJwt(header: Option<string>): (token: Option<string>)
    ensures token.Some? <==> header.Some? && StartsWith(header.value, BEARER_PREFIX)
    ensures token.Some? ==> header.value == BEARER_PREFIX + token.value
  {
    if header.Some? && HasText(header.value) && StartsWith(header.value, BEARER_PREFIX) then
      Some(header.value[|BEARER_PREFIX|..])
    else
      assert header.Some? && StartsWith(header.value, BEARER_PREFIX) ==> !IsWhitespace(header.value[0]);
      None
  }

  /** Every token survives the round trip through a bearer header. */
  lemma ParseJwtRoundTrip(token: string)
    ensures ParseJwt(Some(BEARER_PREFIX + token)) == Some(token)
  {
    var h := BEARER_PREFIX + token;
    assert h[..|BEARER_PREFIX|] == BEARER_PREFIX;
    assert h[|BEARER_PREFIX|..] == token;
  }

  /** A missing header, a blank one, a lower-case scheme or another scheme give no token. */
  lemma ParseJwtRejects(blank: string, rest: string)
    requires !HasText(blank)
    ensures ParseJwt(None) == None
    ensures ParseJwt(Some(blank)) == None
    ensures ParseJwt(Some("bearer " + rest)) == None
    ensures ParseJwt(Some("Basic " + rest)) == None
  {
    assert ("Basic " + rest)[1] == 'a' != BEARER_PREFIX[1];
  }

  /** A response: the HTTP status and the string fields of its JSON body. */
  datatype Response = Response(status: int, body: map<string, string>)

  const OK: int := 200
  const BAD_REQUEST: int := 400

  const MISSING_TOKEN: Response := Response(BAD_REQUEST, map[
    "error" := "Token JWT manquant",
    "message" := "Un token d'authentification valide est requis pour la déconnexion"])
  const INVALID_TOKEN: Response := Response(BAD_REQUEST, map[
    "error" := "Token invalide",
    "message" := "Le token fourni n'est pas valide"])
  const LOGGED_OUT: Response := Response(OK, map[
    "message" := "Déconnexion réussie",
    "status" := "success"])

  /** The body of `verifyToken`: `valid`, `message` and, for a valid token, `username`. */
  datatype TokenStatus = TokenStatus(valid: bool, username: Option<string>, message: string)

  /** The body of `checkEmailAvailability`: its `available` and `exists` fields. */
  datatype Availability = Availability(available: bool, emailExists: bool)

  class AuthController {
    const blacklist: TokenBlacklistService
    const authService: AuthService.AuthService
    /** Whether the JWT library parses the token: a good signature and not expired. */
    const accepts: string -> bool
    /** The subject the JWT library reads from an accepted token. */
    const subjectOf: string -> string
    /** The expiry the JWT library reads from a token, if it can. */
    const expiryOf: string -> Option<int>

    constructor (blacklist: TokenBlacklistService, authService: AuthService.AuthService,
                 accepts: string -> bool, subjectOf: string -> string, expiryOf: string -> Option<int>)
      ensures this.blacklist == blacklist && this.authService == authService
      ensures this.accepts == accepts && this.subjectOf == subjectOf && this.expiryOf == expiryOf
    {
      this.blacklist := blacklist;
      this.authService := authService;
      this.accepts := accepts;
      this.subjectOf := subjectOf;
      this.expiryOf := expiryOf;
    }

    /** `JwtUtils.validateJwtToken`: not blacklisted, and accepted by the JWT library. */
    predicate ValidToken(token: string)
      reads blacklist
    {
      token !in blacklist.tokens && accepts(token)
    }

    /** `JwtUtils.revokeToken`: the expiry it records, one day from `now` when none can be read. */
    function RevocationExpiry(token: string, now: int): (e: int)
      ensures expiryOf(token).Some? ==> e == expiryOf(token).value
      ensures expiryOf(token).None? ==> e == now + ONE_DAY
    {
      match expiryOf(token)
      case Some(e) => e
      case None => now + ONE_DAY
    }

    /**
     * `logoutUser`: a missing or invalid token is a bad request and revokes nothing; a valid
     * token is revoked, once, and afterwards no longer validates.
     */
    method LogoutUser(header: Option<string>, now: int) returns (resp: Response)
      modifies blacklist
      ensures ParseJwt(header).None? ==> resp == MISSING_TOKEN && blacklist.tokens == old(blacklist.tokens)
      ensures ParseJwt(header).Some? && !old(ValidToken(ParseJwt(header).value)) ==>
        resp == INVALID_TOKEN && blacklist.tokens == old(blacklist.tokens)
      ensures ParseJwt(header).Some? && old(ValidToken(ParseJwt(header).value)) ==>
        var token := ParseJwt(header).value;
        && resp == LOGGED_OUT
        && blacklist.tokens == old(blacklist.tokens)[token := RevocationExpiry(token, now)]
        && |blacklist.tokens| == old(|blacklist.tokens|) + 1
        && !ValidToken(token)
    {
      var token := ParseJwt(header);
      if token.None? {
        return MISSING_TOKEN;
      }
      if !ValidToken(token.value) {
        return INVALID_TOKEN;
      }
      var username := subjectOf(token.value);
      blacklist.RevokeToken(token.value, RevocationExpiry(token.value, now));
      resp := LOGGED_OUT;
    }

    /**
     * `verifyToken`: `valid` exactly when a token is present and validates; the username is
     * reported for a valid token only.
     */
    function VerifyToken(header: Option<string>): (r: TokenStatus)
      reads blacklist
      ensures ParseJwt(header).None? ==> r == TokenStatus(false, None, "Token manquant")
      ensures r.valid <==> ParseJwt(header).Some? && ValidToken(ParseJwt(header).value)
      ensures r.valid ==> r.username == Some(subjectOf(ParseJwt(header).value)) && r.message == "Token valide"
      ensures ParseJwt(header).Some? && !r.valid ==> r == TokenStatus(false, None, "Token invalide ou révoqué")
    {
      match ParseJwt(header)
      case None => TokenStatus(false, None, "Token manquant")
      case Some(token) =>
        if ValidToken(token) then TokenStatus(true, Some(subjectOf(token)), "Token valide")
        else TokenStatus(false, None, "Token invalide ou révoqué")
    }

    /** `checkEmailAvailability`: available exactly when no stored user holds the email. */
    function CheckEmailAvailability(email: string): (r: Availability)
      reads authService.repo
      ensures r.emailExists <==> email in authService.repo.Emails()
      ensures r.available <==> !r.emailExists
    {
      var taken := authService.EmailExists(email);
      Availability(!taken, taken)
    }
  }

  /** A token just revoked by a logout is reported invalid by `verifyToken`. */
  lemma RevokedTokenFailsVerification(c: AuthController, token: string)
    requires token in c.blacklist.tokens
    ensures c.VerifyToken(Some(BEARER_PREFIX + token)) == TokenStatus(false, None, "Token invalide ou révoqué")
  {
    ParseJwtRoundTrip(token);
  }
}
