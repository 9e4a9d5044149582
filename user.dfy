/**
 * `User` (src/models/user.rs): sign-up field rules, password hashing in place,
 * the login decision, and how database outcomes become `UserError`s.
 *
 * Argon2 and the salt source are parameters; database queries are the
 * `Result<_, DbError>` values they produced.
 */
module Users {
  import opened Wrappers
  import opened UserErrors
  import opened Jwt

  /** A 32-byte Argon2 salt. */
  type Salt = s: seq<bv8> | |s| == 32
    witness [0, 0, 0, 0, 0, 0, 0, 0, 0, 0, 0, 0, 0, 0, 0, 0, 0, 0, 0, 0, 0, 0, 0, 0, 0, 0, 0, 0, 0, 0, 0, 0]

  /**
   * `argon2::hash_encoded` under the default config, and `argon2::verify_encoded`;
   * each may fail (`None`).
   */
  datatype Argon2 = Argon2(
    hashEncoded: (string, Salt) -> Option<string>,
    verifyEncoded: (string, string) -> Option<bool>)
  {
    /**
     * The only assumption about Argon2: an encoded hash is a non-empty
     * `$argon2...` string, and it verifies against the password it was made from.
     */
    ghost predicate Sound() {
      forall password: string, salt: Salt :: hashEncoded(password, salt).Some? ==>
        && hashEncoded(password, salt).value != []
        && verifyEncoded(hashEncoded(password, salt).value, password) == Some(true)
    }
  }

  /** The sign-up request body. */
  datatype NewUser = NewUser(email: string, name: string, password: string)

  /** The login request body. */
  datatype LoginData = LoginData(email: string, password: string)

  /** The fields `NewUser::validate` checks. */
  datatype Field = Email | Name | Password

  const MIN_LENGTH: nat := 3
  const MAX_LENGTH: nat := 20

  /** `#[validate(length(min = 3, max = 20))]`, counted in characters. */
  predicate LengthOk(s: string) {
    MIN_LENGTH <= |s| <= MAX_LENGTH
  }

  /**
   * `NewUser::validate`: the fields that fail their rule. `isEmail` is the
   * validator crate's email check.
   */
  function Validate(u: NewUser, isEmail: string -> bool): (failed: set<Field>)
    ensures failed == {} <==> isEmail(u.email) && LengthOk(u.name) && LengthOk(u.password)
    ensures Email in failed <==> !isEmail(u.email)
    ensures Name in failed <==> !LengthOk(u.name)
    ensures Password in failed <==> !LengthOk(u.password)
  {
    (if isEmail(u.email) then {} else {Email})
    + (if LengthOk(u.name) then {} else {Name})
    + (if LengthOk(u.password) then {} else {Password})
  }

  /** The database kinds of error `create` tells apart. */
  datatype DatabaseErrorKind = UniqueViolation | ForeignKeyViolation | OtherKind

  /** `diesel::result::Error`, reduced to the cases the user model matches on. */
  datatype DbError = NotFound | DatabaseError(kind: DatabaseErrorKind) | OtherError

  /** A user row. `password` holds the plaintext until `HashPassword` replaces it. */
  class User {
    var id: Uuid
    var email: string
    var name: string
    var password: string
    var createdAt: int

    /** `From<NewUser>`: the request fields verbatim, a new id, the current time. */
    constructor FromNewUser(data: NewUser, newId: Uuid, now: int)
      ensures id == newId && createdAt == now
      ensures email == data.email && name == data.name && password == data.password
    {
      id := newId;
      email := data.email;
      name := data.name;
      password := data.password;
      createdAt := now;
    }

    /**
     * `User::hash_password`: on success the password becomes its encoded hash;
     * on failure it stays as it was and the result is `InternalError`. No other
     * field changes.
     */
    method HashPassword(argon: Argon2, salt: Salt) returns (r: Result<(), UserError>)
      modifies this`password
      ensures id == old(id) && email == old(email) && name == old(name) && createdAt == old(createdAt)
      ensures argon.hashEncoded(old(password), salt).Some? ==>
                r == Ok(()) && password == argon.hashEncoded(old(password), salt).value
      ensures argon.hashEncoded(old(password), salt).None? ==>
                r == Err(InternalError) && password == old(password)
    {
      match argon.hashEncoded(password, salt)
      case Some(hashedPassword) =>
        password := hashedPassword;
        r := Ok(());
      case None =>
        r := Err(InternalError);
    }

    /** `User::verify_password`: an Argon2 error is `InvalidCredentials`. */
    function VerifyPassword(argon: Argon2, candidate: string): (r: Result<bool, UserError>)
      reads this
      ensures r.Err? <==> argon.verifyEncoded(password, candidate).None?
      ensures r.Err? ==> r.error == InvalidCredentials
      ensures r == Ok(true) <==> argon.verifyEncoded(password, candidate) == Some(true)
    {
      match argon.verifyEncoded(password, candidate)
      case Some(ok) => Ok(ok)
      case None => Err(InvalidCredentials)
    }
  }

  /**
   * `User::login`: `found` is the lookup of the user by `data.email`. Success
   * returns that very user, and only when its stored hash is non-empty and
   * verifies the supplied password; every other outcome is `InvalidCredentials`.
   */
  function Login(found: Result<User, DbError>, data: LoginData, argon: Argon2): (r: Result<User, UserError>)
    reads if found.Ok? then {found.value} else {}
    ensures r.Err? ==> r.error == InvalidCredentials
    ensures r.Ok? <==> (found.Ok? && found.value.password != []
                        && argon.verifyEncoded(found.value.password, data.password) == Some(true))
    ensures r.Ok? ==> r.value == found.value
  {
    match found
    case Err(_) => Err(InvalidCredentials)
    case Ok(userToVerify) =>
      if userToVerify.password == [] then Err(InvalidCredentials)
      else
        match userToVerify.VerifyPassword(argon, data.password)
        case Err(e) => Err(e)
        case Ok(true) => Ok(userToVerify)
        case Ok(false) => Err(InvalidCredentials)
  }

  /** An empty stored hash is refused before Argon2 is consulted: the verifier makes no difference. */
  lemma LoginEmptyHashSkipsVerify(u: User, data: LoginData, argon1: Argon2, argon2: Argon2)
    requires u.password == []
    ensures Login(Ok(u), data, argon1) == Login(Ok(u), data, argon2) == Err(InvalidCredentials)
  {
  }

  /** A user whose stored hash was made from `plaintext` logs in with `plaintext`. */
  lemma LoginWithHashedPassword(u: User, plaintext: string, salt: Salt, argon: Argon2)
    requires argon.Sound()
    requires argon.hashEncoded(plaintext, salt) == Some(u.password)
    ensures Login(Ok(u), LoginData(u.email, plaintext), argon) == Ok(u)
  {
  }

  /** `User::get`: `NotFound` is `UserNotFoundError`, any other error `InternalError`. */
  function Get<T>(query: Result<T, DbError>): (r: Result<T, UserError>)
    ensures r.Ok? <==> query.Ok?
    ensures r.Ok? ==> r.value == query.value
    ensures r == Err(UserNotFoundError) <==> query == Err(NotFound)
    ensures r.Err? && query != Err(NotFound) ==> r.error == InternalError
  {
    match query
    case Ok(user) => Ok(user)
    case Err(NotFound) => Err(UserNotFoundError)
    case Err(_) => Err(InternalError)
  }

  /** `User::get_all`: the rows unchanged, or `InternalError` for any database error. */
  function GetAll<T>(query: Result<seq<T>, DbError>): (r: Result<seq<T>, UserError>)
    ensures r.Ok? <==> query.Ok?
    ensures r.Ok? ==> r.value == query.value
    ensures r.Err? ==> r.error == InternalError
  {
    match query
    case Ok(users) => Ok(users)
    case Err(_) => Err(InternalError)
  }

  /** How `create` reports a failed insert of `user`. */
  function InsertError(e: DbError, email: string): (r: UserError)
    ensures r == EmailAlreadyExistsError(email) <==> e == DatabaseError(UniqueViolation)
    ensures r != EmailAlreadyExistsError(email) ==> r == InternalError
  {
    match e
    case DatabaseError(UniqueViolation) => EmailAlreadyExistsError(email)
    case _ => InternalError
  }

  /**
   * `User::create`: build the row from the request, hash its password in place,
   * then insert it; `inserted` is the database's answer to the insert. A
   * hashing failure is `InternalError`.
   */
  method Create(data: NewUser, newId: Uuid, now: int, salt: Salt, argon: Argon2, inserted: Result<(), DbError>)
    returns (r: Result<User, UserError>)
    ensures argon.hashEncoded(data.password, salt).None? ==> r == Err(InternalError)
    ensures argon.hashEncoded(data.password, salt).Some? && inserted.Err? ==>
              r == Err(InsertError(inserted.error, data.email))
    ensures argon.hashEncoded(data.password, salt).Some? && inserted.Ok? ==>
              && r.Ok? && fresh(r.value)
              && r.value.id == newId && r.value.createdAt == now
              && r.value.email == data.email && r.value.name == data.name
              && r.value.password == argon.hashEncoded(data.password, salt).value
  {
    var user := new User.FromNewUser(data, newId, now);
    var hashed := user.HashPassword(argon, salt);
    if hashed.Err? {
      return Err(hashed.error);
    }
    match inserted
    case Ok(_) => r := Ok(user);
    case Err(e) => r := Err(InsertError(e, user.email));
  }

  /** A user created with a password can then log in with that same password. */
  method CreateThenLogin(data: NewUser, newId: Uuid, now: int, salt: Salt, argon: Argon2)
    returns (created: Result<User, UserError>, login: Result<User, UserError>)
    requires argon.Sound()
    ensures argon.hashEncoded(data.password, salt).Some? ==>
              created.Ok? && login == Ok(created.value)
    ensures argon.hashEncoded(data.password, salt).None? ==> created == Err(InternalError)
  {
    created := Create(data, newId, now, salt, argon, Ok(()));
    login := Err(InvalidCredentials);
    if created.Ok? {
      LoginWithHashedPassword(created.value, data.password, salt, argon);
      login := Login(Ok(created.value), LoginData(data.email, data.password), argon);
    }
  }
}
