/**
  The authentication service as a state machine: requests handled one after
  another against the user table, and what holds across any such sequence.
*/
module AuthSessions {
  import opened Wrappers
  import opened AuthService

  /** What the service reaches outside itself for: bcrypt, the configuration and the JWT signer. */
  datatype Deps = Deps(bcrypt: Bcrypt, config: Config, sign: Signer)

  /** One call into the service; `register` also receives the salt and timestamp it cannot compute itself. */
  datatype Request =
    | FindUser(email: string)
    | RegisterUser(input: RegisterInput, salt: string, stamp: Timestamp)
    | LoginUser(credentials: LoginInput)

  datatype Reply =
    | Found(user: Option<User>)
    | Registered(outcome: Result<User, HttpError>)
    | LoggedIn(response: Result<LoginResponse, HttpError>)

  /** Dispatches one request. Only `register` writes the table, and it never alters a row already there. */
  function Handle(s: Store, req: Request, deps: Deps): (t: (Store, Reply))
    ensures !req.RegisterUser? ==> t.0 == s
    ensures req.RegisterUser? ==> req.input.email in t.0.users
    ensures Extends(s, t.0)
    ensures Valid(s) ==> Valid(t.0)
  {
    match req
    case FindUser(email) => (s, Found(FindUserByEmail(s, email)))
    case RegisterUser(input, salt, stamp) =>
      var tr := Register(s, input, salt, deps.bcrypt, stamp);
      (tr.store, Registered(tr.result))
    case LoginUser(credentials) => (s, LoggedIn(Login(s, credentials, deps.bcrypt, deps.config, deps.sign)))
  }

  /** The table after handling `reqs` in order. */
  function Run(s: Store, reqs: seq<Request>, deps: Deps): (s': Store)
    ensures Extends(s, s')
    ensures Valid(s) ==> Valid(s')
    ensures (forall i :: 0 <= i < |reqs| ==> !reqs[i].RegisterUser?) ==> s' == s
    decreases |reqs|
  {
    if reqs == [] then s
    else
      var s1 := Handle(s, reqs[0], deps).0;
      assert forall i :: 0 <= i < |reqs| - 1 ==> reqs[1..][i] == reqs[i + 1];
      Run(s1, reqs[1..], deps)
  }

  /** Every email that some request tried to register is on record afterwards, whether it was inserted or refused. */
  lemma {:induction false} RunRecordsEveryRegistration(s: Store, reqs: seq<Request>, deps: Deps, i: int)
    requires 0 <= i < |reqs| && reqs[i].RegisterUser?
    ensures reqs[i].input.email in Run(s, reqs, deps).users
    decreases |reqs|
  {
    var s1 := Handle(s, reqs[0], deps).0;
    if i > 0 {
      assert reqs[1..][i - 1] == reqs[i];
      RunRecordsEveryRegistration(s1, reqs[1..], deps, i - 1);
    }
  }

  /**
    Registration is not idempotent: once an email has been registered, a later
    `register` with that email is refused with the conflict, whatever password
    it carries and whatever happened in between, and writes nothing.
  */
  lemma ReRegisterConflicts(
    s: Store, first: RegisterInput, salt: string, stamp: Timestamp, between: seq<Request>, deps: Deps,
    password: string, salt': string, stamp': Timestamp)
    requires Register(s, first, salt, deps.bcrypt, stamp).result.Ok?
    ensures
      var later := Run(Register(s, first, salt, deps.bcrypt, stamp).store, between, deps);
      Register(later, RegisterInput(first.email, password), salt', deps.bcrypt, stamp')
        == Transition(later, Err(UserAlreadyExist))
  {
  }

  /**
    A user registered with a password can log in with it after any later
    requests: the response carries that user's projection and tokens.
  */
  lemma LoginAfterRegister(s: Store, input: RegisterInput, salt: string, stamp: Timestamp, between: seq<Request>, deps: Deps)
    requires CompareAcceptsOwnHash(deps.bcrypt)
    requires Register(s, input, salt, deps.bcrypt, stamp).result.Ok?
    ensures
      var created := Register(s, input, salt, deps.bcrypt, stamp).result.value;
      var later := Run(Register(s, input, salt, deps.bcrypt, stamp).store, between, deps);
      Login(later, LoginInput(input.email, input.password), deps.bcrypt, deps.config, deps.sign)
        == Ok(LoginResponse(MapPrismaUserToUserType(created), IssueTokens(created, deps.config, deps.sign)))
  {
  }

  /**
    The inputs of the service's unit tests, chained on one table: on an
    empty table, register `mock@test.com`
    with `12345`; registering again conflicts; logging in with the same
    password succeeds with a projection free of password and biometric key
    and with both tokens behind `Bearer `;
    an unknown email is unauthorized.
  */
  lemma RegisterLoginScenario(deps: Deps, salt: string, stamp: Timestamp)
    requires CompareAcceptsOwnHash(deps.bcrypt)
    ensures
      var input := RegisterInput("mock@test.com", "12345");
      var t := Register(Store(map[], 1), input, salt, deps.bcrypt, stamp);
      && t.result.Ok?
      && t.result.value.email == "mock@test.com"
      && Register(t.store, input, salt, deps.bcrypt, stamp).result == Err(UserAlreadyExist)
      && Login(t.store, LoginInput("mock@test.com", "12345"), deps.bcrypt, deps.config, deps.sign).Ok?
      && Login(t.store, LoginInput("mock@test.com", "12345"), deps.bcrypt, deps.config, deps.sign).value.user.password == None
      && Login(t.store, LoginInput("mock@test.com", "12345"), deps.bcrypt, deps.config, deps.sign).value.user.biometricKey == None
      && BEARER <= Login(t.store, LoginInput("mock@test.com", "12345"), deps.bcrypt, deps.config, deps.sign).value.token.accessToken
      && BEARER <= Login(t.store, LoginInput("mock@test.com", "12345"), deps.bcrypt, deps.config, deps.sign).value.token.refreshToken
      && Login(t.store, LoginInput("invalid@example.com", "invalidpassword"), deps.bcrypt, deps.config, deps.sign)
        == Err(Unauthorized)
  {
  }
}
