// The authentication decisions of internal/service/auth_service.go: which
// error Register, Login and RefreshToken return in which order, and whose
// identity the issued tokens carry. Token signing and validation (pkg/jwt)
// stay abstract: a token is represented by the claims it carries, and
// validation is a function fixed when the service is built.

module Auth {
  import opened Common
  import opened Users

  /** The identity a token carries. */
  datatype Claims = Claims(userId: nat, email: string, role: string)

  /** An access token and a refresh token, both for the same identity. */
  datatype TokenPair = TokenPair(accessToken: Claims, refreshToken: Claims)

  datatype RegisterRequest = RegisterRequest(email: string, password: string, fullName: string, phone: string)

  datatype LoginRequest = LoginRequest(email: string, password: string)

  datatype AuthResponse = AuthResponse(user: UserResponse, tokens: TokenPair)

  /** jwt.GenerateTokenPair for a user: both tokens carry the user's id,
      email and role. */
  function TokensFor(u: User): (t: TokenPair)
    ensures t.accessToken == t.refreshToken
    ensures t.accessToken.userId == u.id && t.accessToken.email == u.email && t.accessToken.role == u.role
  {
    var c := Claims(u.id, u.email, u.role);
    TokenPair(c, c)
  }

  class AuthService {
    const users: UserService
    /** jwt.ValidateToken with the configured secret: the claims of a valid,
        unexpired token, None otherwise. */
    const validateToken: string -> Option<Claims>

    constructor (users: UserService, validateToken: string -> Option<Claims>)
      ensures this.users == users && this.validateToken == validateToken
    {
      this.users := users;
      this.validateToken := validateToken;
    }

    /** Register: an email already in the table is refused and nothing is
        created; otherwise an active user with role "user" is inserted and
        tokens for that user are issued. `passwordHash` is the bcrypt hash of
        the request's password. A user just registered can log in with that
        password. */
    method Register(req: RegisterRequest, passwordHash: string) returns (r: Result<AuthResponse>)
      requires users.Valid()
      modifies users
      ensures users.Valid()
      ensures old(users.GetUserByEmail(req.email)).Ok? ==>
        r == Err(EmailAlreadyExists) && users.users == old(users.users) && users.nextId == old(users.nextId)
      ensures old(users.GetUserByEmail(req.email)).Err? ==>
        var u := User(old(users.nextId), req.email, passwordHash, req.fullName, req.phone, "user", true);
        && users.users == old(users.users) + [u]
        && r == Ok(AuthResponse(ToResponse(u), TokensFor(u)))
      ensures r.Ok? && users.passwordMatches(passwordHash, req.password) ==>
        Login(LoginRequest(req.email, req.password)) == r
    {
      if users.GetUserByEmail(req.email).Ok? {
        return Err(EmailAlreadyExists);
      }
      var user := User(users.nextId, req.email, passwordHash, req.fullName, req.phone, "user", true);
      AppendWellFormed(users.users, users.nextId, user);
      users.users := users.users + [user];
      users.nextId := users.nextId + 1;
      UniqueKeyFound(users.users, UserEmail, req.email, |users.users| - 1);
      r := Ok(AuthResponse(ToResponse(user), TokensFor(user)));
    }

    /** Login: an unknown email and a wrong password give the same error; an
        inactive account is refused before its password is checked. */
    function Login(req: LoginRequest): (r: Result<AuthResponse>)
      reads users
      ensures users.GetUserByEmail(req.email).Err? ==> r == Err(InvalidCredentials)
      ensures users.GetUserByEmail(req.email).Ok? ==>
        var u := users.GetUserByEmail(req.email).value;
        if !u.isActive then r == Err(UserInactive)
        else if !users.passwordMatches(u.passwordHash, req.password) then r == Err(InvalidCredentials)
        else r == Ok(AuthResponse(ToResponse(u), TokensFor(u)))
      ensures r.Ok? ==> r.value.user.email == req.email && r.value.user.isActive
    {
      match users.GetUserByEmail(req.email)
      case Err(_) => Err(InvalidCredentials)
      case Ok(user) =>
        if !user.isActive then Err(UserInactive)
        else if !users.passwordMatches(user.passwordHash, req.password) then Err(InvalidCredentials)
        else Ok(AuthResponse(ToResponse(user), TokensFor(user)))
    }

    /** RefreshToken: an invalid token, a user no longer in the table and an
        inactive user are refused in that order; otherwise fresh tokens carry
        the stored user's current email and role, not the old token's. */
    function RefreshToken(refreshToken: string): (r: Result<TokenPair>)
      reads users
      ensures validateToken(refreshToken).None? ==> r == Err(InvalidToken)
      ensures validateToken(refreshToken).Some? ==>
        var id := validateToken(refreshToken).value.userId;
        if users.GetUserByID(id).Err? then r == Err(UserNotFound)
        else if !users.GetUserByID(id).value.isActive then r == Err(UserInactive)
        else r == Ok(TokensFor(users.GetUserByID(id).value))
      ensures r.Ok? ==> r.value.accessToken.userId == validateToken(refreshToken).value.userId
    {
      match validateToken(refreshToken)
      case None => Err(InvalidToken)
      case Some(claims) =>
        match users.GetUserByID(claims.userId)
        case Err(e) => Err(e)
        case Ok(user) =>
          if !user.isActive then Err(UserInactive)
          else Ok(TokensFor(user))
    }
  }

  /** Whatever goes wrong, Login never tells an unknown email from a wrong
      password: both answers are the same error. */
  lemma LoginHidesWhichCredentialFailed(s: AuthService, unknown: LoginRequest, wrong: LoginRequest)
    requires s.users.GetUserByEmail(unknown.email).Err?
    requires s.users.GetUserByEmail(wrong.email).Ok?
    requires s.users.GetUserByEmail(wrong.email).value.isActive
    requires !s.users.passwordMatches(s.users.GetUserByEmail(wrong.email).value.passwordHash, wrong.password)
    ensures s.Login(unknown) == s.Login(wrong)
  {
  }
}
