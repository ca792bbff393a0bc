/**
  The authentication service: a user table behind three request handlers
  (register, validate credentials, login) and the token issuer they share.

  bcrypt, the JWT signer and the configuration service are foreign code the
  service only calls through; they are parameters here. The one fact the
  service relies on about bcrypt -- a password compares equal to a hash made
  from it -- is the predicate `CompareAcceptsOwnHash`, assumed by the lemmas
  that need it.
*/
module AuthService {
  import opened Wrappers

  /** Timestamps are opaque values set by the persistence layer. */
  type Timestamp = int

  /** A row of the `User` table. `biometricKey` is a nullable column. */
  datatype User = User(
    id: int,
    email: string,
    password: string,
    biometricKey: Option<string>,
    createdAt: Timestamp,
    updatedAt: Timestamp)

  /** The GraphQL `UserType`; `password` and `biometricKey` are nullable fields. */
  datatype UserType = UserType(
    id: int,
    email: string,
    password: Option<string>,
    biometricKey: Option<string>,
    createdAt: Timestamp,
    updatedAt: Timestamp)

  datatype RegisterInput = RegisterInput(email: string, password: string)

  datatype LoginInput = LoginInput(email: string, password: string)

  /** The GraphQL `TokenType`. */
  datatype TokenPair = TokenPair(accessToken: string, refreshToken: string)

  datatype LoginResponse = LoginResponse(user: UserType, token: TokenPair)

  /** An `HttpException` as thrown by the service: a status code and a message. */
  datatype HttpError = HttpError(status: int, message: string)

  const CONFLICT: int := 409
  const UNAUTHORIZED: int := 401

  /** `new HttpException('User Already Exist', HttpStatus.CONFLICT)`. */
  const UserAlreadyExist: HttpError := HttpError(CONFLICT, "User Already Exist")

  /** `new UnauthorizedException()`, which carries the default message. */
  const Unauthorized: HttpError := HttpError(UNAUTHORIZED, "Unauthorized")

  /**
    The `User` table: rows keyed by their unique `email` column, and the
    next value of the autoincrement `id` column.
  */
  datatype Store = Store(users: map<string, User>, nextId: int)

  /** The table's constraints: each row sits under its own email, and ids are unique and already issued. */
  ghost predicate Valid(s: Store) {
    && (forall e :: e in s.users ==> s.users[e].email == e)
    && (forall e :: e in s.users ==> s.users[e].id < s.nextId)
    && (forall e1, e2 :: e1 in s.users && e2 in s.users && e1 != e2 ==> s.users[e1].id != s.users[e2].id)
  }

  /** Some row of the table carries this email (what `findUnique({ where: { email } })` searches for). */
  ghost predicate HasUserWithEmail(s: Store, email: string) {
    exists u :: u in s.users.Values && u.email == email
  }

  /** `s'` keeps every row of `s` unchanged and has not rewound the id counter. */
  ghost predicate Extends(s: Store, s': Store) {
    && s.nextId <= s'.nextId
    && (forall e :: e in s.users ==> e in s'.users && s'.users[e] == s.users[e])
  }

  /** bcrypt as the service sees it: `hash(salt, password)` and `compare(password, hash)`. */
  datatype Bcrypt = Bcrypt(hash: (string, string) -> string, compare: (string, string) -> bool)

  /** The contract of bcrypt the service relies on: a password matches any hash made from it. */
  ghost predicate CompareAcceptsOwnHash(b: Bcrypt) {
    forall salt, password :: b.compare(password, b.hash(salt, password))
  }

  /** The environment's configuration as read through `ConfigService`. */
  type Config = map<string, string>

  const ACCESS_SECRET_KEY: string := "JWT_USER_ACCESS_SECRET"
  const ACCESS_EXPIRY_KEY: string := "JWT_USER_ACCESS_TOKEN_EXPIRY"
  /** The key's spelling is the source's own. */
  const REFRESH_SECRET_KEY: string := "JWT_USER_REFERSH_SECRET"
  const REFRESH_EXPIRY_KEY: string := "JWT_USER_REFRESH_TOKEN_EXPIRY"

  const BEARER: string := "Bearer "

  /** `configService.get(key)`: the value, or undefined when the key is not configured. */
  function ConfigGet(config: Config, key: string): Option<string> {
    if key in config then Some(config[key]) else None
  }

  /** The claims embedded in both tokens. */
  datatype JwtPayload = JwtPayload(username: string, sub: int)

  /** The options handed to `signAsync`. */
  datatype SignOptions = SignOptions(secret: Option<string>, expiresIn: Option<string>)

  /** `jwtService.signAsync(payload, options)`. */
  type Signer = (JwtPayload, SignOptions) -> string

  function AccessOptions(config: Config): SignOptions {
    SignOptions(ConfigGet(config, ACCESS_SECRET_KEY), ConfigGet(config, ACCESS_EXPIRY_KEY))
  }

  function RefreshOptions(config: Config): SignOptions {
    SignOptions(ConfigGet(config, REFRESH_SECRET_KEY), ConfigGet(config, REFRESH_EXPIRY_KEY))
  }

  /** The signed token inside an authorization value `"Bearer <token>"`, if it has that shape. */
  function BearerCredential(value: string): (r: Option<string>)
    ensures r.Some? <==> BEARER <= value
    ensures r.Some? ==> BEARER + r.value == value
  {
    if |BEARER| <= |value| && value[..|BEARER|] == BEARER then
      assert BEARER + value[|BEARER|..] == value;
      Some(value[|BEARER|..])
    else None
  }

  /** The inverse direction: reading back a token just prefixed with the scheme yields that token. */
  lemma BearerRoundTrip(token: string)
    ensures BearerCredential(BEARER + token) == Some(token)
  {
  }

  /** `findUserByEmail`: the row whose email is `email`, or null. */
  function FindUserByEmail(s: Store, email: string): (r: Option<User>)
    ensures r.Some? ==> r.value in s.users.Values
    ensures Valid(s) ==> (r.Some? <==> HasUserWithEmail(s, email))
    ensures Valid(s) && r.Some? ==> r.value.email == email
  {
    if email in s.users then Some(s.users[email]) else None
  }

  /** The outcome of a handler that may write the table: the table afterwards and what it returned or threw. */
  datatype Transition<+T> = Transition(store: Store, result: Result<T, HttpError>)

  /**
    `register`: a known email is refused with a conflict and nothing is written;
    otherwise one row holding the email and the bcrypt hash of the password is
    inserted and returned. The salt, drawn by `bcrypt.genSalt` with cost
    factor 10, is random and so a parameter. The table supplies the id and the
    timestamps; `register` itself never sets a biometric key.
  */
  function Register(s: Store, input: RegisterInput, salt: string, bcrypt: Bcrypt, stamp: Timestamp): (t: Transition<User>)
    ensures Valid(s) && HasUserWithEmail(s, input.email) ==> t == Transition(s, Err(UserAlreadyExist))
    ensures t.result.Err? ==> t == Transition(s, Err(UserAlreadyExist))
    ensures Valid(s) && !HasUserWithEmail(s, input.email) ==> t.result.Ok?
    ensures t.result.Ok? ==>
      && input.email !in s.users
      && t.result.value.email == input.email
      && t.result.value.password == bcrypt.hash(salt, input.password)
      && t.result.value.biometricKey == None
      && t.store.users.Keys == s.users.Keys + {input.email}
      && t.store.users[input.email] == t.result.value
      && |t.store.users| == |s.users| + 1
    ensures Extends(s, t.store)
    ensures Valid(s) ==> Valid(t.store)
  {
    match FindUserByEmail(s, input.email)
    case Some(_) => Transition(s, Err(UserAlreadyExist))
    case None =>
      var created := User(s.nextId, input.email, bcrypt.hash(salt, input.password), None, stamp, stamp);
      Transition(Store(s.users[input.email := created], s.nextId + 1), Ok(created))
  }

  /**
    `mapPrismaUserTouserType`: the public projection of a row. Password and
    biometric key are absent from it whatever the row holds.
  */
  function MapPrismaUserToUserType(u: User): (r: UserType)
    ensures r.password == None && r.biometricKey == None
    ensures r.id == u.id && r.email == u.email
    ensures r.createdAt == u.createdAt && r.updatedAt == u.updatedAt
  {
    UserType(u.id, u.email, None, None, u.createdAt, u.updatedAt)
  }

  /** Rows that agree on their public columns have the same projection: the secrets cannot influence it. */
  lemma ProjectionHidesSecrets(u1: User, u2: User)
    requires u1.id == u2.id && u1.email == u2.email
    requires u1.createdAt == u2.createdAt && u1.updatedAt == u2.updatedAt
    ensures MapPrismaUserToUserType(u1) == MapPrismaUserToUserType(u2)
  {
  }

  /**
    `validateUserCredentials`: the row for `email` when bcrypt accepts the
    password against its stored hash, and null in every other case.
  */
  function ValidateUserCredentials(s: Store, email: string, password: string, bcrypt: Bcrypt): (r: Option<User>)
    ensures r.Some? <==> email in s.users && bcrypt.compare(password, s.users[email].password)
    ensures r.Some? ==> r.value == s.users[email]
    ensures Valid(s) ==> (r.Some? <==> exists u :: u in s.users.Values && u.email == email && bcrypt.compare(password, u.password))
  {
    match FindUserByEmail(s, email)
    case None => None
    case Some(user) => if bcrypt.compare(password, user.password) then Some(user) else None
  }

  /**
    `issueTokens`: the payload `{username: email, sub: id}` signed once with the
    access secret and expiry and once with the refresh ones, each returned
    behind the `Bearer ` scheme.
  */
  function IssueTokens(u: User, config: Config, sign: Signer): (t: TokenPair)
    ensures BearerCredential(t.accessToken) == Some(sign(JwtPayload(u.email, u.id), SignOptions(ConfigGet(config, ACCESS_SECRET_KEY), ConfigGet(config, ACCESS_EXPIRY_KEY))))
    ensures BearerCredential(t.refreshToken) == Some(sign(JwtPayload(u.email, u.id), SignOptions(ConfigGet(config, REFRESH_SECRET_KEY), ConfigGet(config, REFRESH_EXPIRY_KEY))))
  {
    var payload := JwtPayload(u.email, u.id);
    var accessToken := sign(payload, AccessOptions(config));
    var refreshToken := sign(payload, RefreshOptions(config));
    BearerRoundTrip(accessToken);
    BearerRoundTrip(refreshToken);
    TokenPair(BEARER + accessToken, BEARER + refreshToken)
  }

  /** The tokens depend on the row only through its email and id: no password, hash or biometric key reaches them. */
  lemma TokensRevealOnlyIdentity(u1: User, u2: User, config: Config, sign: Signer)
    requires u1.email == u2.email && u1.id == u2.id
    ensures IssueTokens(u1, config, sign) == IssueTokens(u2, config, sign)
  {
  }

  /**
    `login`: unauthorized unless the credentials validate; then the public
    projection of the row and the token pair issued for it.
  */
  function Login(s: Store, input: LoginInput, bcrypt: Bcrypt, config: Config, sign: Signer): (r: Result<LoginResponse, HttpError>)
    ensures r.Err? ==> r.error == Unauthorized
    ensures r.Ok? <==> input.email in s.users && bcrypt.compare(input.password, s.users[input.email].password)
    ensures r.Ok? ==>
      && r.value.user == MapPrismaUserToUserType(s.users[input.email])
      && r.value.token == IssueTokens(s.users[input.email], config, sign)
    ensures r.Ok? ==> r.value.user.password == None && r.value.user.biometricKey == None
  {
    match ValidateUserCredentials(s, input.email, input.password, bcrypt)
    case None => Err(Unauthorized)
    case Some(user) =>
      Ok(LoginResponse(MapPrismaUserToUserType(user), IssueTokens(user, config, sign)))
  }

  /** An unknown email and a wrong password produce the same returned outcome. */
  lemma LoginFailureUndifferentiated(s: Store, unknown: LoginInput, wrong: LoginInput, bcrypt: Bcrypt, config: Config, sign: Signer)
    requires Valid(s)
    requires !HasUserWithEmail(s, unknown.email)
    requires HasUserWithEmail(s, wrong.email)
    requires forall u :: u in s.users.Values && u.email == wrong.email ==> !bcrypt.compare(wrong.password, u.password)
    ensures Login(s, unknown, bcrypt, config, sign) == Login(s, wrong, bcrypt, config, sign) == Err(Unauthorized)
  {
  }

  /** Validation round trip: a user just registered validates with the password given at registration. */
  lemma ValidateAfterRegister(s: Store, input: RegisterInput, salt: string, bcrypt: Bcrypt, stamp: Timestamp)
    requires CompareAcceptsOwnHash(bcrypt)
    requires Valid(s) && !HasUserWithEmail(s, input.email)
    ensures Register(s, input, salt, bcrypt, stamp).result.Ok?
    ensures ValidateUserCredentials(Register(s, input, salt, bcrypt, stamp).store, input.email, input.password, bcrypt)
         == Some(Register(s, input, salt, bcrypt, stamp).result.value)
  {
  }
}
