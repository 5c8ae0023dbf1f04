/** Accounts (internal/service/user_service.go): registration with a unique email and a
    hashed password, login issuing a signed token, and the profile reads and updates.
    The bcrypt hash and check and the JWT signer are parameters. */
module Users {
  import opened Outcomes
  import opened Model
  import opened Repository
  import opened Auth

  datatype RegisterRequest = RegisterRequest(email: string, password: string, nickname: string)
  datatype LoginRequest = LoginRequest(email: string, password: string)
  datatype LoginResponse = LoginResponse(user: User, token: string)

  /** The columns a new account gets: the request's email and nickname, the hash, gender 0
      (unknown), zero age, height and weight, and the column default activity level 3. */
  function NewUser(id: Id, req: RegisterRequest, passwordHash: string): (u: User)
    ensures u.id == id && u.email == req.email && u.nickname == req.nickname
    ensures u.passwordHash == passwordHash
    ensures UserIntsFit(u)
    ensures UserStringsFit(u) <==> |req.email| <= EmailWidth && |req.nickname| <= NicknameWidth
  {
    User(id, req.email, passwordHash, req.nickname, 0, 0, 0.0, 0.0, 3)
  }

  function ClaimsOf(u: User): Claims
  {
    Claims(u.id, u.email, u.nickname)
  }

  /** Register: email first, then hashing, then the insert under the fresh id, which fails
      when the email or the nickname is too long for its column (the integer columns of a
      new account always fit). */
  ghost function RegisterOutcome(
    users: map<Id, User>, req: RegisterRequest, hash: string -> Option<string>, newId: Id)
    : (out: (Result<User, Error>, map<Id, User>))
    ensures out.0.Err? ==> out.1 == users
    ensures out.0.Ok? ==> var u := out.0.value;
      !EmailTaken(users, req.email) && hash(req.password).Some? &&
      u == NewUser(newId, req, hash(req.password).value) && UserFits(u) &&
      newId !in users && out.1 == users[newId := u]
  {
    if EmailTaken(users, req.email) then (Err(EmailAlreadyRegistered), users)
    else
      match hash(req.password)
      case None => (Err(PasswordHashFailed), users)
      case Some(h) =>
        var u := NewUser(newId, req, h);
        if !UserStringsFit(u) then (Err(Store(ValueTooLong)), users)
        else if newId in users then (Err(Store(DuplicateKey)), users)
        else (Ok(u), users[newId := u])
  }

  /** Login: an unknown email and a wrong password give the same answer. */
  ghost function LoginOutcome(
    users: map<Id, User>, req: LoginRequest, check: (string, string) -> bool, sign: Claims -> Option<string>)
    : (r: Result<LoginResponse, Error>)
    ensures r.Err? ==> r.error in {InvalidCredentials, TokenGenerationFailed}
    ensures r.Ok? ==> var u := r.value.user;
      u in users.Values && u.email == req.email && check(req.password, u.passwordHash) &&
      sign(ClaimsOf(u)) == Some(r.value.token)
  {
    match UserWithEmail(users, req.email)
    case None => Err(InvalidCredentials)
    case Some(u) =>
      if !check(req.password, u.passwordHash) then Err(InvalidCredentials)
      else
        match sign(ClaimsOf(u))
        case None => Err(TokenGenerationFailed)
        case Some(token) => Ok(LoginResponse(u, token))
  }

  /** UpdateProfile: only a non-empty nickname replaces the stored one; the row is then
      saved whole, with the store's checks in the order of UserRepository.Update. */
  function UpdateProfileOutcome(users: map<Id, User>, userId: Id, nickname: string)
    : (out: (Option<Error>, map<Id, User>))
    ensures out.0.Some? ==> out.1 == users
    ensures userId !in users ==> out.0 == Some(UserNotFound)
    ensures out.0.None? ==> userId in users && out.1.Keys == users.Keys
    ensures out.0.None? ==> var saved := users[userId].id;
      saved in users && UserFits(out.1[saved]) &&
      out.1[saved].nickname == (if nickname != "" then nickname else users[userId].nickname) &&
      forall id :: id in users && id != saved ==> out.1[id] == users[id]
  {
    if userId !in users then (Some(UserNotFound), users)
    else
      var u := if nickname != "" then users[userId].(nickname := nickname) else users[userId];
      if u.id !in users then (Some(Store(NoRowsAffected)), users)
      else if !UserIntsFit(u) then (Some(Store(OutOfRange)), users)
      else if !UserStringsFit(u) then (Some(Store(ValueTooLong)), users)
      else if exists id :: id in users && id != u.id && users[id].email == u.email then
        (Some(Store(DuplicateKey)), users)
      else (None, users[u.id := u])
  }

  class UserService {
    const userRepo: UserRepository

    constructor (userRepo: UserRepository)
      ensures this.userRepo == userRepo
    {
      this.userRepo := userRepo;
    }

    /** `hash` stands for bcrypt at the default cost (None: it failed); `newId` for the
        store's generated UUID. */
    method Register(req: RegisterRequest, hash: string -> Option<string>, newId: Id)
      returns (r: Result<User, Error>)
      requires userRepo.Valid()
      modifies userRepo
      ensures userRepo.Valid()
      ensures (r, userRepo.users) == RegisterOutcome(old(userRepo.users), req, hash, newId)
    {
      var existing := userRepo.FindByEmail(req.email);
      if existing.Some? {
        return Err(EmailAlreadyRegistered);
      }
      var h := hash(req.password);
      if h.None? {
        return Err(PasswordHashFailed);
      }
      var user := NewUser(newId, req, h.value);
      var err := userRepo.Create(user);
      if err.Some? {
        return Err(Store(err.value));
      }
      return Ok(user);
    }

    /** `check` stands for bcrypt's comparison of a password with a hash; `sign` for
        GenerateJWT (None: signing failed). */
    method Login(req: LoginRequest, check: (string, string) -> bool, sign: Claims -> Option<string>)
      returns (r: Result<LoginResponse, Error>)
      requires userRepo.Valid()
      ensures r == LoginOutcome(userRepo.users, req, check, sign)
    {
      var user := userRepo.FindByEmail(req.email);
      if user.None? {
        return Err(InvalidCredentials);
      }
      if !check(req.password, user.value.passwordHash) {
        return Err(InvalidCredentials);
      }
      var token := sign(ClaimsOf(user.value));
      if token.None? {
        return Err(TokenGenerationFailed);
      }
      return Ok(LoginResponse(user.value, token.value));
    }

    /** The stored user with the password hash blanked out. */
    method GetProfile(userId: Id) returns (r: Result<User, Error>)
      ensures r.Ok? <==> userId in userRepo.users
      ensures r.Err? ==> r.error == UserNotFound
      ensures r.Ok? ==> r.value.passwordHash == "" &&
                        r.value.(passwordHash := userRepo.users[userId].passwordHash) == userRepo.users[userId]
    {
      var user := userRepo.FindByID(userId);
      if user.None? {
        return Err(UserNotFound);
      }
      return Ok(user.value.(passwordHash := ""));
    }

    method UpdateProfile(userId: Id, nickname: string) returns (e: Option<Error>)
      requires userRepo.Valid()
      modifies userRepo
      ensures userRepo.Valid()
      ensures (e, userRepo.users) == UpdateProfileOutcome(old(userRepo.users), userId, nickname)
    {
      var user := userRepo.FindByID(userId);
      if user.None? {
        return Some(UserNotFound);
      }
      var u := if nickname != "" then user.value.(nickname := nickname) else user.value;
      var err := userRepo.Update(u);
      e := match err
        case Some(cause) => Some(Store(cause))
        case None => None;
    }
  }

  // ---------------------------------------------------------------- properties

  /** In a table with unique emails, the user found by email is the one stored with it. */
  lemma UserWithEmailIsTheStoredUser(users: map<Id, User>, id: Id)
    requires EmailsUnique(users) && id in users
    ensures UserWithEmail(users, users[id].email) == Some(users[id])
  {
    var found := UserWithEmail(users, users[id].email);
    assert EmailTaken(users, users[id].email);
    var other :| other in users && users[other] == found.value;
  }

  /** A registration fails, writing nothing, when the email is taken or hashing fails. */
  lemma RegisterCheckOrder(users: map<Id, User>, req: RegisterRequest, hash: string -> Option<string>, newId: Id)
    ensures var (r, after) := RegisterOutcome(users, req, hash, newId);
      (r.Err? ==> after == users) &&
      (EmailTaken(users, req.email) ==> r == Err(EmailAlreadyRegistered)) &&
      ((!EmailTaken(users, req.email) && hash(req.password).None?) ==> r == Err(PasswordHashFailed)) &&
      ((!EmailTaken(users, req.email) && hash(req.password).Some? &&
        (|req.email| > EmailWidth || |req.nickname| > NicknameWidth)) ==> r == Err(Store(ValueTooLong)))
  {
  }

  /** A registration adds exactly one account, with the defaults, and keeps the ids and
      emails of the table consistent and unique and its rows within their columns. */
  lemma RegisterAddsOneAccount(users: map<Id, User>, req: RegisterRequest, hash: string -> Option<string>, newId: Id)
    requires UserKeysMatch(users) && EmailsUnique(users)
    ensures var (r, after) := RegisterOutcome(users, req, hash, newId);
      UserKeysMatch(after) && EmailsUnique(after) && (UsersFit(users) ==> UsersFit(after)) &&
      (r.Ok? ==> hash(req.password).Some? && newId !in users && UserFits(r.value) &&
                 r.value == NewUser(newId, req, hash(req.password).value) &&
                 after == users[newId := r.value] && |after| == |users| + 1)
  {
  }

  /** An email can be registered once: a second registration with it fails. */
  lemma RegisterEmailOnce(
    users: map<Id, User>, req: RegisterRequest, hash: string -> Option<string>, newId: Id,
    again: RegisterRequest, hash2: string -> Option<string>, newId2: Id)
    requires RegisterOutcome(users, req, hash, newId).0.Ok?
    requires again.email == req.email
    ensures RegisterOutcome(RegisterOutcome(users, req, hash, newId).1, again, hash2, newId2) ==
            (Err(EmailAlreadyRegistered), RegisterOutcome(users, req, hash, newId).1)
  {
    var after := RegisterOutcome(users, req, hash, newId).1;
    assert after[newId].email == again.email;
  }

  /** Login cannot tell an unknown email from a wrong password. */
  lemma LoginFailuresIndistinguishable(
    users: map<Id, User>, req: LoginRequest, check: (string, string) -> bool, sign: Claims -> Option<string>)
    ensures !EmailTaken(users, req.email) ==> LoginOutcome(users, req, check, sign) == Err(InvalidCredentials)
    ensures (EmailTaken(users, req.email) && !check(req.password, UserWithEmail(users, req.email).value.passwordHash))
            ==> LoginOutcome(users, req, check, sign) == Err(InvalidCredentials)
    ensures LoginOutcome(users, req, check, sign).Ok? ==>
            EmailTaken(users, req.email) && check(req.password, UserWithEmail(users, req.email).value.passwordHash)
  {
  }

  /** Register, then log in with the same email and password: the login returns the new
      account and the token signed for its claims, provided the hash the password was stored
      under checks against it. */
  lemma RegisterThenLogin(
    users: map<Id, User>, req: RegisterRequest, hash: string -> Option<string>, newId: Id,
    check: (string, string) -> bool, sign: Claims -> Option<string>)
    requires UserKeysMatch(users) && EmailsUnique(users)
    requires RegisterOutcome(users, req, hash, newId).0.Ok?
    requires check(req.password, hash(req.password).value)
    requires sign(ClaimsOf(NewUser(newId, req, hash(req.password).value))).Some?
    ensures var (r, after) := RegisterOutcome(users, req, hash, newId);
      LoginOutcome(after, LoginRequest(req.email, req.password), check, sign) ==
      Ok(LoginResponse(r.value, sign(ClaimsOf(r.value)).value))
  {
    var (r, after) := RegisterOutcome(users, req, hash, newId);
    RegisterAddsOneAccount(users, req, hash, newId);
    UserWithEmailIsTheStoredUser(after, newId);
  }

  /** A token a successful login returns, presented as "Bearer <token>", passes the
      middleware with the logged-in user's id, email and nickname, when the verifier accepts
      what the signer produced. */
  lemma LoginTokenAuthenticates(
    users: map<Id, User>, req: LoginRequest, check: (string, string) -> bool, sign: Claims -> Option<string>,
    parseJWT: string -> Result<Claims, string>)
    requires LoginOutcome(users, req, check, sign).Ok?
    requires var resp := LoginOutcome(users, req, check, sign).value;
      ' ' !in resp.token && parseJWT(resp.token) == Ok(ClaimsOf(resp.user))
    ensures var resp := LoginOutcome(users, req, check, sign).value;
      AuthMiddleware("Bearer " + resp.token, parseJWT) ==
      Next(map["user_id" := resp.user.id, "user_email" := resp.user.email, "user_nickname" := resp.user.nickname])
  {
    var resp := LoginOutcome(users, req, check, sign).value;
    TokenPassedVerbatim(resp.token, parseJWT);
  }

  /** UpdateProfile on a consistent table: it fails only for an unknown user or a nickname
      too long for its column, changes only the nickname and only when the new one is
      non-empty, and keeps the table consistent. */
  lemma UpdateProfileOnlyNickname(users: map<Id, User>, userId: Id, nickname: string)
    requires UserKeysMatch(users) && EmailsUnique(users) && UsersFit(users)
    ensures var (e, after) := UpdateProfileOutcome(users, userId, nickname);
      (e.Some? <==> userId !in users || |nickname| > NicknameWidth) &&
      (userId !in users ==> e == Some(UserNotFound)) &&
      (userId in users && |nickname| > NicknameWidth ==> e == Some(Store(ValueTooLong))) &&
      (e.Some? ==> after == users) &&
      (e.None? ==> after.Keys == users.Keys &&
                   after[userId].(nickname := users[userId].nickname) == users[userId] &&
                   after[userId].nickname == (if nickname != "" then nickname else users[userId].nickname) &&
                   (forall id :: id in users && id != userId ==> after[id] == users[id])) &&
      (nickname == "" ==> after == users) &&
      UserKeysMatch(after) && EmailsUnique(after) && UsersFit(after)
  {
  }
}
