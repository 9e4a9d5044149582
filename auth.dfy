/**
 * `AuthenticatedUser` (src/models/auth.rs): the identity handed to request
 * handlers, projected from strictly decoded token claims.
 */
module Auth {
  import opened Wrappers
  import opened Strings
  import opened UserErrors
  import opened Jwt

  datatype AuthenticatedUser = AuthenticatedUser(email: string, id: Uuid)

  /** `From<UserToken>`: keep the identity, drop the validity window. */
  function FromUserToken(token: UserToken): (user: AuthenticatedUser)
    ensures user.id == token.id && user.email == token.email
  {
    AuthenticatedUser(token.email, token.id)
  }

  /** Tokens that differ only in `iat`/`exp` resolve to the same identity, and distinct identities stay distinct. */
  lemma FromUserTokenIsIdentityOnly(t1: UserToken, t2: UserToken)
    ensures FromUserToken(t1) == FromUserToken(t2) <==> t1.id == t2.id && t1.email == t2.email
  {
  }

  /**
   * `FromRequest for AuthenticatedUser`: parse the header, decode strictly,
   * project; every failure becomes `Unauthorized`.
   */
  function AuthenticatedUserFromRequest(env: TokenEnv, header: Option<seq<bv8>>, now: int): (r: Result<AuthenticatedUser, UserError>)
    ensures r.Err? ==> r.error == Unauthorized
    ensures r.Ok? <==> (ParseJwtFromRequest(header).Ok?
                        && DecodeToken(env, ParseJwtFromRequest(header).value, now).Ok?)
    ensures r.Ok? ==> r.value == FromUserToken(DecodeToken(env, ParseJwtFromRequest(header).value, now).value)
  {
    match ParseJwtFromRequest(header)
    case Ok(jwt) =>
      (match DecodeToken(env, jwt, now)
       case Ok(userToken) => Ok(FromUserToken(userToken))
       case Err(_) => Err(Unauthorized))
    case Err(_) => Err(Unauthorized)
  }

  /** Whatever the strict extractor accepts, the lenient `UserToken` extractor accepts, with the same identity. */
  lemma StrictExtractorImpliesLenient(env: TokenEnv, header: Option<seq<bv8>>, now: int)
    requires AuthenticatedUserFromRequest(env, header, now).Ok?
    ensures UserTokenFromRequest(env, header, now).Ok?
    ensures FromUserToken(UserTokenFromRequest(env, header, now).value) == AuthenticatedUserFromRequest(env, header, now).value
  {
  }

  /** A request without an `Authorization` header is refused with a 4xx status. */
  lemma MissingHeaderIsClientError(env: TokenEnv, now: int)
    ensures AuthenticatedUserFromRequest(env, None, now) == Err(Unauthorized)
    ensures IsClientError(StatusCode(AuthenticatedUserFromRequest(env, None, now).error))
  {
  }

  /** Text a compact JWT is made of: non-empty visible ASCII without blanks. */
  predicate IsTokenText(t: string) {
    |t| > 0 && forall i :: 0 <= i < |t| ==> 33 <= t[i] as int < 127
  }

  /** The header bytes a client sends for `<scheme> <token>`, as `format!("{} {}", token_type, token)` builds it. */
  function BearerHeader(scheme: string, token: string): (header: Option<seq<bv8>>)
    requires scheme == "bearer" || scheme == "Bearer"
    requires IsTokenText(token)
    ensures header.Some? && |header.value| == 7 + |token|
  {
    Some(AsciiBytes(scheme + " " + token))
  }

  /** The `bearer <token>` or `Bearer <token>` header reaches the decoder with the token intact. */
  lemma BearerHeaderParses(scheme: string, token: string)
    requires scheme == "bearer" || scheme == "Bearer"
    requires IsTokenText(token)
    ensures ParseJwtFromRequest(BearerHeader(scheme, token)) == Ok(token)
  {
    var s := scheme + " " + token;
    assert forall i :: 0 <= i < |s| ==> 32 <= s[i] as int < 127 by {
      forall i | 0 <= i < |s| ensures 32 <= s[i] as int < 127 {
        if i >= 7 { assert s[i] == token[i - 7]; }
      }
    }
    ToStrAscii(s);
    assert IsWord(token);
    ParseLowercaseBearer(token);
    if scheme == "bearer" {
      assert s == "bearer " + token;
    } else {
      assert s == "Bearer " + token;
    }
  }

  /**
   * A token fresh from `generate_token` authenticates its own identity until
   * its expiry (plus leeway) has passed, and is refused after that.
   */
  lemma IssuedTokenAuthenticates(env: TokenEnv, scheme: string, issued: int, userId: Uuid, email: string, now: int)
    requires scheme == "bearer" || scheme == "Bearer"
    requires env.Sound()
    requires GenerateToken(env, issued, userId, email).Ok?
    requires IsTokenText(GenerateToken(env, issued, userId, email).value)
    ensures var r := AuthenticatedUserFromRequest(env, BearerHeader(scheme, GenerateToken(env, issued, userId, email).value), now);
            && (r.Ok? <==> now <= issued + ONE_HOUR + env.leeway)
            && (r.Ok? ==> r.value == AuthenticatedUser(email, userId))
  {
    var token := GenerateToken(env, issued, userId, email).value;
    BearerHeaderParses(scheme, token);
    GeneratedTokenClaims(env, issued, userId, email, now);
  }

  /**
   * A correctly signed but expired token is refused by the strict extractor and
   * accepted by the lenient one: the converse of StrictExtractorImpliesLenient fails.
   */
  lemma ExpiredTokenOnlyLenientExtractor(env: TokenEnv, scheme: string, claims: UserToken, now: int)
    requires scheme == "bearer" || scheme == "Bearer"
    requires env.Sound()
    requires env.encode(env.key, claims).Some?
    requires IsTokenText(env.encode(env.key, claims).value)
    requires Expired(claims, now, env.leeway)
    ensures AuthenticatedUserFromRequest(env, BearerHeader(scheme, env.encode(env.key, claims).value), now) == Err(Unauthorized)
    ensures UserTokenFromRequest(env, BearerHeader(scheme, env.encode(env.key, claims).value), now) == Ok(claims)
  {
    BearerHeaderParses(scheme, env.encode(env.key, claims).value);
    ExpiredTokenOnlyLenient(env, claims, now);
  }
}
