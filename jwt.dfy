/**
 * `UserToken` (src/models/jwt.rs): the JWT claim record, token issuance,
 * strict and lenient decoding, and extraction of the bearer token from the
 * `Authorization` header (RFC 7519 tokens signed with HS256, section 3.2 of
 * RFC 7518; the header loosely follows section 2.1 of RFC 6750).
 *
 * The `jsonwebtoken` primitives and the secret key are the fields of a
 * `TokenEnv`; the clock is the `now` parameter (seconds since the epoch).
 */
module Jwt {
  import opened Wrappers
  import opened Strings
  import opened UserErrors

  /** A 128-bit `Uuid`. */
  newtype Uuid = x: int | 0 <= x < 0x1_0000_0000_0000_0000_0000_0000_0000_0000

  /** The 16-byte HMAC secret (`KEY`, read from `secret.key` at build time). */
  type Key = k: seq<bv8> | |k| == 16
    witness [0, 0, 0, 0, 0, 0, 0, 0, 0, 0, 0, 0, 0, 0, 0, 0]

  /** Token lifetime in seconds. Named "one hour" but sixty seconds long. */
  const ONE_HOUR: int := 60 * 1

  /** The claims: issued-at and expiry timestamps, then the identity. */
  datatype UserToken = UserToken(iat: int, exp: int, email: string, id: Uuid)

  /**
   * The secret key together with the `jsonwebtoken` operations that use it.
   * `encode` signs the serialised claims under the default (HS256) header and
   * may fail; `decode` checks format, algorithm and signature and yields the
   * claims, with no time check.
   */
  datatype TokenEnv = TokenEnv(
    key: Key,
    encode: (Key, UserToken) -> Option<string>,
    decode: (Key, string) -> Option<UserToken>,
    leeway: nat)
  {
    /** The only assumption about the codec: a token signed with a key decodes under that key to its claims. */
    ghost predicate Sound() {
      forall k: Key, c: UserToken :: encode(k, c).Some? ==> decode(k, encode(k, c).value) == Some(c)
    }
  }

  /** The `jsonwebtoken` error kinds the model distinguishes. */
  datatype JwtError = InvalidToken | ExpiredSignature

  /** `jsonwebtoken::Validation`: whether `exp` is checked, and with what leeway. */
  datatype Validation = Validation(validateExp: bool, leeway: nat)

  /** `Validation::new(Algorithm::HS256)`: expiry checked, with the library's default leeway. */
  function NewValidation(env: TokenEnv): Validation {
    Validation(true, env.leeway)
  }

  /** The library's expiry rule. */
  predicate Expired(t: UserToken, now: int, leeway: nat) {
    t.exp < now - leeway
  }

  /** `jsonwebtoken::decode` under the process key. */
  function JwtDecode(env: TokenEnv, jwt: string, validation: Validation, now: int): (r: Result<UserToken, JwtError>)
    ensures r.Ok? ==> env.decode(env.key, jwt) == Some(r.value)
    ensures r.Ok? ==> !validation.validateExp || !Expired(r.value, now, validation.leeway)
    ensures r == Err(ExpiredSignature) ==> validation.validateExp && env.decode(env.key, jwt).Some?
  {
    match env.decode(env.key, jwt)
    case None => Err(InvalidToken)
    case Some(claims) =>
      if validation.validateExp && Expired(claims, now, validation.leeway)
      then Err(ExpiredSignature)
      else Ok(claims)
  }

  /** The claims `generate_token` signs. */
  function NewUserToken(now: int, userId: Uuid, email: string): UserToken {
    UserToken(now, now + ONE_HOUR, email, userId)
  }

  /** `UserToken::generate_token`: sign fresh claims; a signing failure is `InternalError`. */
  function GenerateToken(env: TokenEnv, now: int, userId: Uuid, email: string): (r: Result<string, UserError>)
    ensures r.Err? <==> env.encode(env.key, NewUserToken(now, userId, email)).None?
    ensures r.Err? ==> r.error == InternalError
  {
    match env.encode(env.key, NewUserToken(now, userId, email))
    case Some(token) => Ok(token)
    case None => Err(InternalError)
  }

  /** `UserToken::decode_token`: signature and expiry checked; every failure is `Unauthorized`. */
  function DecodeToken(env: TokenEnv, jwt: string, now: int): (r: Result<UserToken, UserError>)
    ensures r.Err? ==> r.error == Unauthorized
    ensures r.Ok? <==> env.decode(env.key, jwt).Some? && !Expired(env.decode(env.key, jwt).value, now, env.leeway)
    ensures r.Ok? ==> r.value == env.decode(env.key, jwt).value
  {
    match JwtDecode(env, jwt, NewValidation(env), now)
    case Ok(claims) => Ok(claims)
    case Err(_) => Err(Unauthorized)
  }

  /** `UserToken::verify_token`: as `decode_token` with `validate_exp` switched off. */
  function VerifyToken(env: TokenEnv, jwt: string, now: int): (r: Result<UserToken, UserError>)
    ensures r.Err? ==> r.error == Unauthorized
    ensures r.Ok? <==> env.decode(env.key, jwt).Some?
    ensures r.Ok? ==> r.value == env.decode(env.key, jwt).value
  {
    var validation := NewValidation(env).(validateExp := false);
    match JwtDecode(env, jwt, validation, now)
    case Ok(claims) => Ok(claims)
    case Err(_) => Err(Unauthorized)
  }

  /** What strict decoding accepts, lenient decoding accepts with the same claims. */
  lemma StrictImpliesLenient(env: TokenEnv, jwt: string, now: int)
    ensures DecodeToken(env, jwt, now).Ok? ==> VerifyToken(env, jwt, now) == DecodeToken(env, jwt, now)
  {
  }

  /** Lenient decoding does not depend on the clock. */
  lemma VerifyTokenIgnoresClock(env: TokenEnv, jwt: string, now: int, later: int)
    ensures VerifyToken(env, jwt, now) == VerifyToken(env, jwt, later)
  {
  }

  /** A correctly signed token past its expiry (and leeway) fails strict decoding but passes lenient decoding. */
  lemma ExpiredTokenOnlyLenient(env: TokenEnv, claims: UserToken, now: int)
    requires env.Sound()
    requires env.encode(env.key, claims).Some?
    requires Expired(claims, now, env.leeway)
    ensures DecodeToken(env, env.encode(env.key, claims).value, now) == Err(Unauthorized)
    ensures VerifyToken(env, env.encode(env.key, claims).value, now) == Ok(claims)
  {
  }

  /**
   * A token from `generate_token` at time `issued` carries `iat = issued`,
   * `exp = issued + ONE_HOUR` and the given identity; lenient decoding always
   * gives those claims back and strict decoding does so exactly until
   * `exp` plus the leeway has passed.
   */
  lemma GeneratedTokenClaims(env: TokenEnv, issued: int, userId: Uuid, email: string, now: int)
    requires env.Sound()
    requires GenerateToken(env, issued, userId, email).Ok?
    ensures var token := GenerateToken(env, issued, userId, email).value;
            var r := VerifyToken(env, token, now);
            && r.Ok?
            && r.value.iat == issued && r.value.exp == issued + ONE_HOUR && r.value.iat < r.value.exp
            && r.value.id == userId && r.value.email == email
            && (DecodeToken(env, token, now).Ok? <==> now <= issued + ONE_HOUR + env.leeway)
            && (DecodeToken(env, token, now).Ok? ==> DecodeToken(env, token, now) == r)
  {
  }

  /** The scheme test of `parse_jwt_from_request`: a raw prefix test, case-sensitive except for the first letter. */
  predicate HasBearerPrefix(s: string) {
    StartsWith(s, "bearer") || StartsWith(s, "Bearer")
  }

  /** `parse_jwt_from_request` once the header has been read as text. */
  function ParseAuthorization(s: string): (r: Result<string, UserError>)
    ensures r.Err? ==> r.error == Unauthorized
    ensures r.Ok? ==> HasBearerPrefix(s) && IsWord(r.value)
    ensures r.Ok? <==> HasBearerPrefix(s) && |SplitWhitespace(s)| == 2
    ensures r.Ok? ==> r.value == SplitWhitespace(s)[1]
  {
    if !HasBearerPrefix(s) then Err(Unauthorized)
    else
      var bearerToken := SplitWhitespace(s);
      if |bearerToken| != 2 then Err(Unauthorized)
      else Ok(bearerToken[1])
  }

  /**
   * `UserToken::parse_jwt_from_request`: `header` is the first `Authorization`
   * value of the request, if any.
   */
  function ParseJwtFromRequest(header: Option<seq<bv8>>): (r: Result<string, UserError>)
    ensures r.Err? ==> r.error == Unauthorized
    ensures header.None? ==> r.Err?
    ensures header.Some? && ToStr(header.value).None? ==> r.Err?
    ensures r.Ok? ==> header.Some? && ToStr(header.value).Some?
    ensures header.Some? && ToStr(header.value).Some? ==> r == ParseAuthorization(ToStr(header.value).value)
  {
    match header
    case None => Err(Unauthorized)
    case Some(bytes) =>
      match ToStr(bytes)
      case None => Err(Unauthorized)
      case Some(authStr) => ParseAuthorization(authStr)
  }

  /**
   * A header `<w> <token>` whose first word passes the prefix test hands back
   * the token unchanged: `Bearer abc` and `bearer abc` give `abc`, and so does
   * `Bearerfoo abc`, since the test is a raw prefix test.
   */
  lemma {:induction false} ParseBearerToken(w: string, token: string)
    requires IsWord(w) && HasBearerPrefix(w)
    requires IsWord(token)
    ensures ParseAuthorization(w + " " + token) == Ok(token)
  {
    var s := w + " " + token;
    assert JoinWords([w, token]) == s by {
      assert [w, token][1..] == [token];
    }
    SplitJoin([w, token]);
    assert s[..6] == w[..6];
  }

  /** The client's `bearer <token>` header, as the login response's `token_type` spells it, parses back to the token. */
  lemma ParseLowercaseBearer(token: string)
    requires IsWord(token)
    ensures ParseAuthorization("bearer " + token) == Ok(token)
    ensures ParseAuthorization("Bearer " + token) == Ok(token)
  {
    var lower: string, upper: string := "bearer", "Bearer";
    assert IsWord(lower) && IsWord(upper);
    assert lower[..6] == lower && upper[..6] == upper;
    ParseBearerToken(lower, token);
    ParseBearerToken(upper, token);
    assert "bearer " + token == lower + " " + token;
    assert "Bearer " + token == upper + " " + token;
  }

  /** A header of one piece (`Bearer` alone) or of three (`Bearer a b`) is rejected. */
  lemma {:induction false} ParseRejectsPieceCount(w: string, a: string, b: string)
    requires IsWord(w) && IsWord(a) && IsWord(b)
    ensures ParseAuthorization(w) == Err(Unauthorized)
    ensures ParseAuthorization(w + " " + a + " " + b) == Err(Unauthorized)
  {
    assert JoinWords([w]) == w;
    SplitJoin([w]);
    assert JoinWords([w, a, b]) == w + " " + a + " " + b by {
      assert [w, a, b][1..] == [a, b];
      assert [a, b][1..] == [b];
      assert JoinWords([a, b]) == a + " " + b;
    }
    SplitJoin([w, a, b]);
  }

  /** `BEARER ...`, any other scheme, and a leading blank all fail the prefix test. */
  lemma ParseRejectsScheme(s: string)
    requires |s| > 0
    requires IsWhitespace(s[0]) || (|s| > 1 && s[1] != 'e')
    ensures ParseAuthorization(s) == Err(Unauthorized)
  {
  }

  /**
   * `FromRequest for UserToken`: parse the header, then decode leniently;
   * every failure becomes `Unauthorized`.
   */
  function UserTokenFromRequest(env: TokenEnv, header: Option<seq<bv8>>, now: int): (r: Result<UserToken, UserError>)
    ensures r.Err? ==> r.error == Unauthorized
    ensures r.Ok? <==> (ParseJwtFromRequest(header).Ok?
                        && VerifyToken(env, ParseJwtFromRequest(header).value, now).Ok?)
    ensures r.Ok? ==> r == VerifyToken(env, ParseJwtFromRequest(header).value, now)
  {
    match ParseJwtFromRequest(header)
    case Ok(jwt) =>
      (match VerifyToken(env, jwt, now)
       case Ok(userToken) => Ok(userToken)
       case Err(_) => Err(Unauthorized))
    case Err(_) => Err(Unauthorized)
  }
}
