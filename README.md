# Authentication core of rust-simple-api, in Dafny

A model of the credential-checking core of a small actix-web user API:

- `jwt.dfy` (module `Jwt`, from `src/models/jwt.rs`): the `UserToken` claim
  record, `generate_token`, the strict `decode_token` and the lenient
  `verify_token` (expiry check switched off), the bearer-header parser
  `parse_jwt_from_request` and the `UserToken` request extractor. Tokens are
  RFC 7519 JSON Web Tokens signed with HS256 (section 3.2 of RFC 7518).
- `auth.dfy` (module `Auth`, from `src/models/auth.rs`): `AuthenticatedUser`,
  its projection from claims, and the strict request extractor (parse, strict
  decode, project).
- `user.dfy` (module `Users`, from `src/models/user.rs`): the `NewUser` field
  rules, the `User` row as a class whose `HashPassword` replaces the password
  in place, `verify_password`, the `login` decision, `From<NewUser>`, and the
  mapping of database outcomes to `UserError` in `get`, `get_all` and `create`.
- `errors_user.dfy` (module `UserErrors`, from `src/errors/user.rs`): the
  `UserError` variants, their status codes, display texts, the JSON error
  body and `From<ValidationErrors>`.
- `strings.dfy` (module `Strings`): the behaviour of Rust's
  `char::is_whitespace`, `str::split_whitespace`, `str::starts_with` and the
  `http` crate's `HeaderValue::to_str` that the parser depends on, with a
  reference definition (words joined by single spaces) it is proved against.
- `wrappers.dfy` (module `Wrappers`): `Option` and `Result`.

Cryptography is a parameter. `Jwt.TokenEnv` holds the 16-byte secret key,
the `jsonwebtoken` encoder and decoder (as functions) and the library's expiry
leeway; its `Sound()` predicate is the assumption made about decoding: a token
signed under a key decodes under that key to the claims that were signed. The
lemmas that send an issued token through the header
(`Auth.IssuedTokenAuthenticates`, `Auth.ExpiredTokenOnlyLenientExtractor`)
make one more assumption about the encoder, stated as their `requires`:
its output satisfies `Auth.IsTokenText`, i.e. non-empty visible ASCII
without blanks, as a compact JWS made of base64url characters and dots is.
Every decode path takes the key from the same `TokenEnv`. Likewise
`Users.Argon2` holds `hash_encoded` and `verify_encoded`, and its `Sound()`
says that an encoded hash is non-empty and verifies against the password it
was made from. The clock is the `now` parameter. A database query is the
`Result<_, DbError>` value it produced.

The token lifetime constant `ONE_HOUR` is kept as the code defines it,
`60 * 1` seconds, although its name says an hour. The header parser follows
the code, not the Bearer grammar of section 2.1 of RFC 6750: the scheme test
is a raw prefix test for `bearer` or `Bearer` (so `Bearerfoo tok` passes it
and `BEARER tok` does not), followed by a whitespace split that must give
exactly two pieces.

## Model

| member | source | states |
|---|---|---|
| `Strings.ToStr` | src/models/jwt.rs:71 | the header has a text form exactly when every byte is visible ASCII or a tab, and then the text is those bytes as characters |
| `Strings.ToStrAscii` | src/models/jwt.rs:71 | a header written as visible ASCII text reads back as that text |
| `Strings.SplitWhitespace` | src/models/jwt.rs:77-79 | every piece of the whitespace split is non-empty and contains no whitespace |
| `Strings.SplitJoin` | src/models/jwt.rs:77-79 | splitting words joined by single spaces gives back exactly those words |
| `Strings.SplitKeepsCharacters` | src/models/jwt.rs:77-79 | the pieces, concatenated, are exactly the non-whitespace characters of the input, in order |
| `UserErrors.StatusCode` | src/errors/user.rs:28-37 | every variant has a status, one of 400, 401, 404, 500 |
| `UserErrors.ClientErrorUnlessInternal` | src/errors/user.rs:28-37 | a variant maps to a 4xx status exactly when it is not `InternalError`, which maps to 500 |
| `UserErrors.AuthenticationFailuresShare401` | src/errors/user.rs:13-37 | 401 is the status of exactly `Unauthorized` and `InvalidCredentials`, and their display texts differ |
| `UserErrors.Display` | src/errors/user.rs:11-25 | `ValidationError` displays its message; every other variant displays a non-empty sentence ending in a full stop |
| `UserErrors.TakenEmailRoundTrip` | src/errors/user.rs:19-20 | `EmailAlreadyExistsError` displays as `Email <email> is already taken.` and the email can be read back unchanged |
| `UserErrors.ErrorResponse` | src/errors/user.rs:39-45 | the response uses exactly the variant's status code, a JSON content type, and the body `{"error": <display text>}` with no other key |
| `UserErrors.FromValidationErrors` | src/errors/user.rs:48-54 | the error built from validation failures displays the validator's text and answers 400 |
| `Jwt.JwtDecode` | src/models/jwt.rs:47-51 | a decode succeeds only with the claims the signature check yields, never with expired claims when expiry is checked, and reports expiry only for a correctly signed token |
| `Jwt.GenerateToken` | src/models/jwt.rs:29-44 | issuing fails only when signing fails, and then with `InternalError` |
| `Jwt.GeneratedTokenClaims` | src/models/jwt.rs:15-36 | an issued token decodes to `iat = now`, `exp = now + ONE_HOUR` (so `iat < exp`) and the given id and email; lenient decoding always accepts it, strict decoding exactly until `exp` plus leeway has passed |
| `Jwt.DecodeToken` | src/models/jwt.rs:46-54 | strict decoding succeeds exactly for a correctly signed, unexpired token, returns its claims unchanged, and fails only with `Unauthorized` |
| `Jwt.VerifyToken` | src/models/jwt.rs:56-67 | lenient decoding succeeds exactly for a correctly signed token, expired or not, returns its claims unchanged, and fails only with `Unauthorized` |
| `Jwt.StrictImpliesLenient` | src/models/jwt.rs:46-67 | whatever strict decoding accepts, lenient decoding accepts with the same claims |
| `Jwt.VerifyTokenIgnoresClock` | src/models/jwt.rs:57-58 | the lenient result does not depend on the time of the check |
| `Jwt.ExpiredTokenOnlyLenient` | src/models/jwt.rs:46-67 | a correctly signed token past its expiry fails strict decoding with `Unauthorized` and passes lenient decoding with its claims |
| `Jwt.ParseAuthorization` | src/models/jwt.rs:73-87 | the header text is accepted exactly when it starts with `bearer` or `Bearer` and splits into two pieces; the result is the second piece, non-empty and free of whitespace; every rejection is `Unauthorized` |
| `Jwt.ParseJwtFromRequest` | src/models/jwt.rs:69-91 | a missing header, or one that is not valid header text, gives `Unauthorized`; a header that is valid text gives exactly the result of parsing that text |
| `Jwt.ParseBearerToken` | src/models/jwt.rs:73-87 | `<w> <token>` with a word `w` that passes the prefix test (including `Bearerfoo`) parses to exactly `token` |
| `Jwt.ParseLowercaseBearer` | src/tests/user.rs:94 | the `bearer <token>` and `Bearer <token>` headers a client builds parse back to the token |
| `Jwt.ParseRejectsPieceCount` | src/models/jwt.rs:81-83 | a header of one piece (`Bearer`) or of three (`Bearer a b`) gives `Unauthorized` |
| `Jwt.ParseRejectsScheme` | src/models/jwt.rs:73-75 | a header with a leading blank, or whose second character is not `e` (`BEARER x`, `Basic x`), gives `Unauthorized` |
| `Jwt.UserTokenFromRequest` | src/models/jwt.rs:95-115 | the lenient extractor succeeds exactly when the header parses and lenient decoding accepts the token, with those claims; otherwise `Unauthorized` |
| `Auth.FromUserToken` | src/models/auth.rs:15-19 | the identity carries the token's id and email |
| `Auth.FromUserTokenIsIdentityOnly` | src/models/auth.rs:15-19 | two tokens give the same identity exactly when their id and email agree, whatever their `iat`/`exp` |
| `Auth.AuthenticatedUserFromRequest` | src/models/auth.rs:21-39 | the strict extractor succeeds exactly when the header parses and strict decoding accepts the token, with the projection of its claims; every rejection is `Unauthorized` |
| `Auth.StrictExtractorImpliesLenient` | src/models/auth.rs:28-38 | a request the strict extractor accepts is accepted by the lenient `UserToken` extractor, with claims that project to the same identity |
| `Auth.MissingHeaderIsClientError` | src/tests/user.rs:111-122 | a request without an `Authorization` header is refused with `Unauthorized`, a 4xx status |
| `Auth.BearerHeaderParses` | src/tests/user.rs:94-102 | the bytes of `bearer <token>` (the login response's `token_type`, as the test sends it) or `Bearer <token>` reach the decoder as exactly `token` |
| `Auth.IssuedTokenAuthenticates` | src/tests/user.rs:78-108 | a freshly issued token, sent as `bearer <token>` or `Bearer <token>`, authenticates its own id and email until its expiry plus leeway, and is refused afterwards |
| `Auth.ExpiredTokenOnlyLenientExtractor` | src/models/auth.rs:28-38 | for an expired, correctly signed token the strict extractor answers `Unauthorized` while the lenient one returns its claims |
| `Users.Validate` | src/models/user.rs:22-30 | a new user is valid exactly when name and password have 3 to 20 characters and the email passes the email check; each failing field is reported |
| `Users.User.FromNewUser` | src/models/user.rs:108-118 | the row copies email, name and password verbatim, with the new id and the creation time |
| `Users.User.HashPassword` | src/models/user.rs:88-98 | on success only the password changes, to its encoded hash; on failure nothing changes and the result is `InternalError` |
| `Users.User.VerifyPassword` | src/models/user.rs:100-105 | the verifier's verdict is passed on; a verifier error becomes `InvalidCredentials` |
| `Users.Login` | src/models/user.rs:71-86 | login succeeds exactly when the lookup found a user whose stored hash is non-empty and verifies the password, and returns that user; every failure is `InvalidCredentials` |
| `Users.LoginEmptyHashSkipsVerify` | src/models/user.rs:76-78 | an empty stored hash gives `InvalidCredentials` whatever the verifier would say |
| `Users.LoginWithHashedPassword` | src/models/user.rs:80-82 | a user whose stored hash was made from a password logs in with that password |
| `Users.Get` | src/models/user.rs:46-52 | the row is returned unchanged; `NotFound` and only it becomes `UserNotFoundError`; any other error is `InternalError` |
| `Users.GetAll` | src/models/user.rs:39-44 | the rows are returned unchanged; any error is `InternalError` |
| `Users.InsertError` | src/models/user.rs:63-67 | a unique violation and only it becomes `EmailAlreadyExistsError` with the user's email; any other error is `InternalError` |
| `Users.Create` | src/models/user.rs:54-69 | a hashing failure is `InternalError`; otherwise a failed insert is reported as above, and a successful one returns a new row with the request's email and name, the hashed password, the new id and the creation time |
| `Users.CreateThenLogin` | src/tests/user.rs:59-90 | a user created with a password can log in with that password |

## Left out

- HMAC-SHA256 signing, the JWT header and base64url encoding inside `jsonwebtoken`: abstract functions in `Jwt.TokenEnv`. Tamper resistance (a modified token fails to decode) is not assumed, so it is not proved.
- The form of the encoder's output is not derived: the compact serialisation (base64url segments joined by dots) is inside `jsonwebtoken`, so the lemmas that put a token into a header require `Auth.IsTokenText` of it.
- The expiry leeway of `Validation::new` belongs to the `jsonwebtoken` version in use and is not visible in this repository: it is the `leeway` field of `Jwt.TokenEnv`. The check modelled is the library's `exp < now - leeway`.
- Argon2 hashing and verification and the random salt: abstract functions in `Users.Argon2`, with the salt a parameter. That a wrong password fails verification, and that two hashes of one password differ, are not assumed and not proved; `Login` is stated in terms of whatever the verifier answers.
- `Jwt.GeneratedTokenClaims`: `now + ONE_HOUR` is computed on unbounded integers; the 64-bit overflow of the timestamp, far outside realistic clock values, is not modelled.
- `Users.User.VerifyPassword` and `Users.User.HashPassword`: the UTF-8 encoding of `as_bytes()` is folded into the abstract Argon2 functions, which take the password as text.
- The contents of the secret key file: the key is a field of `Jwt.TokenEnv`.
- The clock: `Utc::now()` is the `now` parameter, for token issuance and for row creation.
- Diesel queries, the connection pool and migrations (`src/db.rs`): a query is the value it returned. `Users.Create` returns the row it inserted; the row the database reads back is assumed to be that row.
- The email format check of the `validator` crate and the text of a `ValidationErrors`: a parameter of `Users.Validate` and the argument of `UserErrors.FromValidationErrors`.
- JSON serialisation of the error body: `UserErrors.ErrorResponse` gives the body as a one-key map, not as escaped text.
- A request with several `Authorization` headers: `HeaderMap::get` takes the first, which is the header value the model receives.
- The actix server, CORS, JSON configuration and the boxed futures of the extractors (`src/main.rs`): the extractors are plain functions.
- The handlers of `src/api/users_controller.rs`: glue around the modelled functions (pool checkout, `web::block`, JSON responses); their re-issuing of tokens is `Jwt.GenerateToken`.
- `src/middleware/pool.rs`: not compiled into the program and calls functions that do not exist in `src/models/jwt.rs`; it is not part of this model.
- The `println!` logging in `src/models/jwt.rs` and `src/models/user.rs`.
