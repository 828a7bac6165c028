/** controllers/authController.js: account registration, password login that issues a
    one-time code, and code verification that stores a refresh token.

    The express-validator chains of the auth routes run before the handlers; their outcome
    is the list `errors` passed in, and the `username` and `email` of register and login
    stand for the values their sanitizers produce. verify-otp has no chain, so its email is
    taken as sent. `mongoSanitize.sanitize` leaves a string unchanged and is the identity
    here. Sending the code by mail is left out. */
module AuthController {
  import opened Common
  import opened Jwt
  import opened UserModel
  import opened Store
  import opened Http
  import opened AuthGate
  import UserController

  const AllFieldsRequired := "All fields are required"
  const UserAlreadyExists := "User already exists"
  const ServerError := "Server error"
  const InvalidCredentials := "Invalid email or password"
  const InvalidOtp := "Invalid OTP"

  /** `User.findOne({ email })` for a body field that may be missing. Mongoose drops a
      condition whose value is `undefined`, so without an email the query is `findOne({})`
      and finds the first stored account in natural order. */
  function FindByEmailField(w: World, email: Option<string>): (r: Option<UserId>)
    ensures r.Some? ==> r.value in w.users && r.value in w.userOrder
    ensures email.Some? ==> r == FindUserByEmail(w, email.value)
    ensures email.None? ==> r == FindFirstUser(w)
    ensures email.None? ==> (r.None? <==> forall id :: id in w.userOrder ==> id !in w.users)
  {
    if email.None? then FindFirstUser(w) else FindUserByEmail(w, email.value)
  }

  // ---------------------------------------------------------------------------
  // register
  // ---------------------------------------------------------------------------

  /** `register`. `newId` is the `_id` the created document gets. `User.create` runs the
      schema's setters and validators and the pre-save hook (a new document's password counts
      as modified, so it is hashed); a validation error or a unique-index violation lands in
      the catch (500). The refresh token is generated on the in-memory document after it was
      saved, so the stored account keeps no refresh token; it only goes into a cookie. */
  function Register(cfg: Config, w: World, errors: seq<string>, username: Option<string>, email: Option<string>, password: Option<string>, newId: UserId, now: int): (World, Response) {
    if |errors| > 0 then (w, Reply(400, Errors(errors)))
    else if !Truthy(username) || !Truthy(email) || !Truthy(password) then (w, Reply(400, Message(AllFieldsRequired)))
    else if FindUserByEmail(w, email.value).Some? then (w, Reply(400, Message(UserAlreadyExists)))
    else
      match NewUser(username.value, email.value, password.value)
      case None => (w, Reply(500, Message(ServerError)))
      case Some(u) => CreateAccount(cfg, w, newId, u, now)
  }

  /** `User.create` of a validated new account `u` and the answer that follows it. */
  function CreateAccount(cfg: Config, w: World, newId: UserId, u: User, now: int): (World, Response) {
    var saved := PreSaved(u, true, cfg.hash);
    match InsertUser(w, newId, saved)
    case None => (w, Reply(500, Message(ServerError)))
    case Some(w') =>
      var access := cfg.codec.encode(ModelAccessToken(newId, saved, cfg.env, now));
      var refresh := cfg.codec.encode(ModelRefreshToken(newId, cfg.env, now));
      (w', Response(201, Registered(newId, saved.username, saved.email, access), [SetCookie("refreshToken", refresh)]))
  }

  /** Validator errors and missing fields are 400 and create nothing; so is an email that is
      already registered (after the schema's trimming of the query value). */
  lemma RegisterRejects(cfg: Config, w: World, errors: seq<string>, username: Option<string>, email: Option<string>, password: Option<string>, newId: UserId, now: int)
    ensures |errors| > 0 ==> Register(cfg, w, errors, username, email, password, newId, now) == (w, Reply(400, Errors(errors)))
    ensures |errors| == 0 && (!Truthy(username) || !Truthy(email) || !Truthy(password)) ==>
      Register(cfg, w, errors, username, email, password, newId, now) == (w, Reply(400, Message(AllFieldsRequired)))
    ensures (|errors| == 0 && Truthy(username) && Truthy(email) && Truthy(password) &&
             exists id :: id in w.userOrder && id in w.users && w.users[id].email == Trim(email.value)) ==>
      Register(cfg, w, errors, username, email, password, newId, now) == (w, Reply(400, Message(UserAlreadyExists)))
    ensures Register(cfg, w, errors, username, email, password, newId, now).1.status != 201 ==>
      Register(cfg, w, errors, username, email, password, newId, now).0 == w
  {
  }

  /** A successful registration adds exactly one account under `newId`: trimmed username
      and email, the hashed password, the schema defaults, and no stored refresh token. The
      answer carries that id, username and email and an access token for them; the refresh
      cookie holds a refresh token for the same id. */
  lemma RegisterCreates(cfg: Config, w: World, errors: seq<string>, username: Option<string>, email: Option<string>, password: Option<string>, newId: UserId, now: int)
    requires Register(cfg, w, errors, username, email, password, newId, now).1.status == 201
    ensures var (w', r) := Register(cfg, w, errors, username, email, password, newId, now);
      var u := User(Trim(username.value), Trim(email.value), cfg.hash(password.value), DefaultProfilePic, false, None, None, [], [], [], []);
      && newId !in w.users
      && w' == w.(users := w.users[newId := u], userOrder := w.userOrder + [newId])
      && r.body == Registered(newId, u.username, u.email, cfg.codec.encode(ModelAccessToken(newId, u, cfg.env, now)))
      && r.cookies == [SetCookie("refreshToken", cfg.codec.encode(ModelRefreshToken(newId, cfg.env, now)))]
  {
    var created := NewUser(username.value, email.value, password.value).value;
    var saved := PreSaved(created, true, cfg.hash);
    assert saved == User(Trim(username.value), Trim(email.value), cfg.hash(password.value), DefaultProfilePic, false, None, None, [], [], [], []);
    assert Register(cfg, w, errors, username, email, password, newId, now) == CreateAccount(cfg, w, newId, created, now);
    assert InsertUser(w, newId, saved).Some?;
  }

  lemma RegisterKeeps(cfg: Config, w: World, errors: seq<string>, username: Option<string>, email: Option<string>, password: Option<string>, newId: UserId, now: int)
    requires Invariant(cfg, w)
    ensures Invariant(cfg, Register(cfg, w, errors, username, email, password, newId, now).0)
  {
    if |errors| == 0 && Truthy(username) && Truthy(email) && Truthy(password) && FindUserByEmail(w, email.value).None? {
      var u := NewUser(username.value, email.value, password.value);
      if u.Some? {
        CreateAccountKeeps(cfg, w, newId, u.value, now);
      }
    }
  }

  lemma CreateAccountKeeps(cfg: Config, w: World, newId: UserId, u: User, now: int)
    requires Invariant(cfg, w) && u.refreshToken.None?
    ensures Invariant(cfg, CreateAccount(cfg, w, newId, u, now).0)
  {
    var saved := PreSaved(u, true, cfg.hash);
    if InsertUser(w, newId, saved).Some? {
      InsertUserKeeps(cfg, w, newId, saved);
    }
  }

  // ---------------------------------------------------------------------------
  // login
  // ---------------------------------------------------------------------------

  /** The code `Math.floor(100000 + Math.random() * 900000)`, for the value `rnd` that
      `Math.random()` returned. */
  function OtpCode(rnd: real): (n: nat)
    requires 0.0 <= rnd < 1.0
    ensures 100000 <= n <= 999999
  {
    var x := 100000.0 + rnd * 900000.0;
    assert 100000.0 <= x < 1000000.0;
    x.Floor
  }

  /** The stored code: always six decimal digits, whose value is the number drawn. */
  lemma OtpShape(rnd: real)
    requires 0.0 <= rnd < 1.0
    ensures |NatToString(OtpCode(rnd))| == 6
    ensures DecimalValue(NatToString(OtpCode(rnd))) == OtpCode(rnd)
  {
    assert Pow10(5) == 100000 by {
      assert Pow10(1) == 10;
      assert Pow10(2) == 100;
      assert Pow10(3) == 1000;
      assert Pow10(4) == 10000;
    }
    assert Pow10(6) == 1000000;
    NatToStringLength(OtpCode(rnd), 5);
    NatToStringValue(OtpCode(rnd));
  }

  /** The access token `login` signs: `{ userId, role }` (the schema has no `role`, so it is
      left out of the payload) under JWT_SECRET for one hour. */
  function LoginAccessToken(id: UserId, now: int): (t: Token)
    ensures t.secret == AccessSecret && t.claims == Claims(Some(id), None, None, None)
    ensures t.iat == now && t.exp == Some(now + OneHour)
  {
    Sign(AccessSecret, Claims(Some(id), None, None, None), now, Some(OneHour)).value
  }

  /** The refresh token `login` signs: `{ userId }`, also under JWT_SECRET, for seven days. */
  function LoginRefreshToken(id: UserId, now: int): (t: Token)
    ensures t.secret == AccessSecret && t.claims == Claims(Some(id), None, None, None)
    ensures t.iat == now && t.exp == Some(now + SevenDays)
  {
    Sign(AccessSecret, Claims(Some(id), None, None, None), now, Some(SevenDays)).value
  }

  /** What `login` does once the password matched, for the account `id`: the refresh
      cookie is set, the code is put on the loaded document, and `save()` validates the
      whole account. A stored account the schema no longer accepts (a blank username, which
      the profile update can store) fails the save: 500, still with the cookie, nothing
      written. */
  function LoginSucceeded(cfg: Config, w: World, id: UserId, rnd: real, now: int): (World, Response)
    requires 0.0 <= rnd < 1.0 && id in w.users
  {
    var access := cfg.codec.encode(LoginAccessToken(id, now));
    var refresh := cfg.codec.encode(LoginRefreshToken(id, now));
    var coded := w.users[id].(otp := Some(NatToString(OtpCode(rnd))));
    if !UserSchemaValid(coded) then (w, Response(500, Message(ServerError), [SetCookie("refreshToken", refresh)]))
    else
      var u' := PreSaved(coded, false, cfg.hash);
      (w.(users := w.users[id := u']), Response(200, LoggedIn(access, UserDoc(id, u')), [SetCookie("refreshToken", refresh)]))
  }

  /** `login`. `rnd` is the value `Math.random()` returns. `bcrypt.compare` with a missing
      password throws (500). On success the code overwrites `otp`; saving does not rehash,
      because the password was not modified. The answer carries the whole stored account. */
  function Login(cfg: Config, w: World, errors: seq<string>, email: Option<string>, password: Option<string>, rnd: real, now: int): (World, Response)
    requires 0.0 <= rnd < 1.0
  {
    if |errors| > 0 then (w, Reply(400, Errors(errors)))
    else
      match FindByEmailField(w, email)
      case None => (w, Reply(400, Message(InvalidCredentials)))
      case Some(id) =>
        if password.None? then (w, Reply(500, Message(ServerError)))
        else if !Compare(cfg, password.value, w.users[id].password) then (w, Reply(400, Message(InvalidCredentials)))
        else LoginSucceeded(cfg, w, id, rnd, now)
  }

  /** An unknown email and a wrong password give the same answer and change nothing, so
      the answer does not reveal whether the email is registered. */
  lemma LoginUniformError(cfg: Config, w: World, email: Option<string>, password: Option<string>, rnd: real, now: int)
    requires 0.0 <= rnd < 1.0
    ensures FindByEmailField(w, email).None? ==>
      Login(cfg, w, [], email, password, rnd, now) == (w, Reply(400, Message(InvalidCredentials)))
    ensures var id := FindByEmailField(w, email);
      id.Some? && password.Some? && cfg.hash(password.value) != w.users[id.value].password ==>
      Login(cfg, w, [], email, password, rnd, now) == (w, Reply(400, Message(InvalidCredentials)))
  {
  }

  /** A 200 from `login` means no validator errors, a found account, a matching password,
      and a stored account the schema accepts; the outcome is then `LoginSucceeded`. */
  lemma LoginIssuesCode(cfg: Config, w: World, errors: seq<string>, email: Option<string>, password: Option<string>, rnd: real, now: int)
    requires 0.0 <= rnd < 1.0
    requires Login(cfg, w, errors, email, password, rnd, now).1.status == 200
    ensures var id := FindByEmailField(w, email);
      && |errors| == 0 && id.Some? && id.value in w.users && password.Some?
      && cfg.hash(password.value) == w.users[id.value].password
      && UserSchemaValid(w.users[id.value])
      && Login(cfg, w, errors, email, password, rnd, now) == LoginSucceeded(cfg, w, id.value, rnd, now)
  {
  }

  /** A successful login replaces whatever code was stored with a six-digit code in
      [100000, 999999] and changes nothing else; in particular no refresh token is stored.
      The access token is `{ userId }` for one hour and the refresh cookie `{ userId }` for
      seven days, both under JWT_SECRET. The answer echoes the stored account, code and
      password hash included. */
  lemma LoginSuccessEffect(cfg: Config, w: World, id: UserId, rnd: real, now: int)
    requires 0.0 <= rnd < 1.0 && id in w.users
    ensures !UserSchemaValid(w.users[id]) ==>
      LoginSucceeded(cfg, w, id, rnd, now) ==
        (w, Response(500, Message(ServerError), [SetCookie("refreshToken", cfg.codec.encode(LoginRefreshToken(id, now)))]))
    ensures UserSchemaValid(w.users[id]) ==>
      var (w', r) := LoginSucceeded(cfg, w, id, rnd, now);
      var code := NatToString(OtpCode(rnd));
      && w' == w.(users := w.users[id := w.users[id].(otp := Some(code))])
      && |code| == 6 && 100000 <= DecimalValue(code) <= 999999
      && r.status == 200
      && r.body == LoggedIn(cfg.codec.encode(LoginAccessToken(id, now)), UserDoc(id, w'.users[id]))
      && r.cookies == [SetCookie("refreshToken", cfg.codec.encode(LoginRefreshToken(id, now)))]
  {
    OtpShape(rnd);
  }

  lemma LoginKeeps(cfg: Config, w: World, errors: seq<string>, email: Option<string>, password: Option<string>, rnd: real, now: int)
    requires 0.0 <= rnd < 1.0
    requires Invariant(cfg, w)
    ensures Invariant(cfg, Login(cfg, w, errors, email, password, rnd, now).0)
  {
    var id := FindByEmailField(w, email);
    if Login(cfg, w, errors, email, password, rnd, now).1.status == 200 {
      LoginIssuesCode(cfg, w, errors, email, password, rnd, now);
      assert UserSchemaValid(w.users[id.value].(otp := Some(NatToString(OtpCode(rnd)))));
      SetUserKeeps(cfg, w, id.value, w.users[id.value].(otp := Some(NatToString(OtpCode(rnd)))));
    }
  }

  /** The profile update runs no validators, so a blank username is stored; from then on
      every save of that account fails, and neither a login with the right password nor a
      right code gets further than a 500. */
  lemma BlankNameLocksOut(cfg: Config, w: World, reqUser: Claims, name: string, file: Option<string>, rnd: real, now: int, accessToken: Token, refreshToken: Token)
    requires 0.0 <= rnd < 1.0 && Trim(name) == ""
    requires FindUser(w, reqUser.userId).Some?
    requires UserController.UpdateUserProfile(w, reqUser, Some(name), None, file).1.status == 200
    ensures var w' := UserController.UpdateUserProfile(w, reqUser, Some(name), None, file).0;
      var id := reqUser.userId.value;
      && id in w'.users && w'.users[id].username == ""
      && LoginSucceeded(cfg, w', id, rnd, now).1.status == 500
      && LoginSucceeded(cfg, w', id, rnd, now).0 == w'
      && OtpVerified(cfg, w', id, accessToken, refreshToken) == (w', Reply(500, Message(ServerError)))
  {
    UserController.UpdateProfileEffect(w, reqUser, Some(name), None, file);
  }

  /** With bcrypt's hash, an account just registered logs in with the same email and
      password: the answer is 200 and the account then holds a six-digit code. */
  lemma RegisterThenLogin(cfg: Config, w: World, username: string, email: string, password: string, newId: UserId, now: int, rnd: real, later: int)
    requires Invariant(cfg, w) && BcryptShape(cfg.hash) && 0.0 <= rnd < 1.0
    requires Register(cfg, w, [], Some(username), Some(email), Some(password), newId, now).1.status == 201
    ensures var w1 := Register(cfg, w, [], Some(username), Some(email), Some(password), newId, now).0;
      var (w2, r) := Login(cfg, w1, [], Some(email), Some(password), rnd, later);
      && r.status == 200
      && newId in w2.users && w2.users[newId].otp.Some?
      && |w2.users[newId].otp.value| == 6 && 100000 <= DecimalValue(w2.users[newId].otp.value) <= 999999
  {
    var w1 := Register(cfg, w, [], Some(username), Some(email), Some(password), newId, now).0;
    RegisterCreates(cfg, w, [], Some(username), Some(email), Some(password), newId, now);
    RegisterKeeps(cfg, w, [], Some(username), Some(email), Some(password), newId, now);
    assert NewUser(username, email, password).Some?;
    assert UserSchemaValid(w1.users[newId]);
    FindUserByEmailMiss(w1, email);
    assert w1.users[newId].email == Trim(email);
    assert FindByEmailField(w1, Some(email)) == Some(newId);
    LoginSuccessEffect(cfg, w1, newId, rnd, later);
  }

  // ---------------------------------------------------------------------------
  // verifyOTP
  // ---------------------------------------------------------------------------

  /** What `verifyOTP` does with both tokens signed, for the account `id`: the refresh
      token and the cleared code go on the loaded document, and `save()` validates the whole
      account; a stored account the schema no longer accepts fails it (500, nothing written,
      no cookie). */
  function OtpVerified(cfg: Config, w: World, id: UserId, accessToken: Token, refreshToken: Token): (World, Response)
    requires id in w.users
  {
    var access := cfg.codec.encode(accessToken);
    var stored := w.users[id].(refreshToken := Some(cfg.codec.encode(refreshToken)), otp := None);
    if !UserSchemaValid(stored) then (w, Reply(500, Message(ServerError)))
    else
      var u' := PreSaved(stored, false, cfg.hash);
      (w.(users := w.users[id := u']), Response(200, OtpAccepted(access), [SetCookie("accesstoken", access)]))
  }

  /** `verifyOTP`. There is no validator chain on this route. The two utils/jwt.js signers
      throw when their expiry variable is unset (500). On success the refresh token is stored
      on the account and the code is cleared; only the access token goes into a cookie. */
  function VerifyOtp(cfg: Config, w: World, email: Option<string>, otp: Option<string>, now: int): (World, Response) {
    match FindByEmailField(w, email)
    case None => (w, Reply(400, Message("User not found")))
    case Some(id) =>
      if !Truthy(w.users[id].otp) || w.users[id].otp != otp then (w, Reply(400, Message(InvalidOtp)))
      else
        match UtilAccessToken(cfg.env, id, now)
        case None => (w, Reply(500, Message(ServerError)))
        case Some(accessToken) =>
          match UtilRefreshToken(cfg.env, id, now)
          case None => (w, Reply(500, Message(ServerError)))
          case Some(refreshToken) => OtpVerified(cfg, w, id, accessToken, refreshToken)
  }

  /** An unknown email (or, without one, an empty collection), no stored code, or a
      different code is 400 and nothing changes. */
  lemma VerifyOtpRejects(cfg: Config, w: World, email: Option<string>, otp: Option<string>, now: int)
    ensures (email.Some? && FindUserByEmail(w, email.value).None?) || (email.None? && forall id :: id in w.userOrder ==> id !in w.users) ==>
      VerifyOtp(cfg, w, email, otp, now) == (w, Reply(400, Message("User not found")))
    ensures var id := FindByEmailField(w, email);
      id.Some? && (w.users[id.value].otp.None? || w.users[id.value].otp == Some("") || w.users[id.value].otp != otp) ==>
      VerifyOtp(cfg, w, email, otp, now) == (w, Reply(400, Message(InvalidOtp)))
    ensures VerifyOtp(cfg, w, email, otp, now).1.status != 200 ==> VerifyOtp(cfg, w, email, otp, now).0 == w
  {
  }

  /** A successful verification stores the text of a JWT_REFRESH_SECRET token for the
      account, clears the code and changes nothing else, and sets the access-token cookie.
      It succeeds exactly when the stored code is non-empty and equal to the one sent, both
      expiry variables are set, and the stored account passes the schema's validators. */
  lemma VerifyOtpStores(cfg: Config, w: World, email: Option<string>, otp: Option<string>, now: int)
    requires FindByEmailField(w, email).Some?
    ensures var (w', r) := VerifyOtp(cfg, w, email, otp, now);
      var id := FindByEmailField(w, email).value;
      && (r.status == 200 <==>
            && Truthy(w.users[id].otp) && w.users[id].otp == otp && cfg.env.jwtExpires.Some? && cfg.env.jwtRefreshExpires.Some?
            && UserSchemaValid(w.users[id]))
      && (r.status == 200 ==>
            var refresh := UtilRefreshToken(cfg.env, id, now).value;
            var access := cfg.codec.encode(UtilAccessToken(cfg.env, id, now).value);
            && refresh.secret == RefreshSecret && refresh.claims.userId == Some(id)
            && w' == w.(users := w.users[id := w.users[id].(refreshToken := Some(cfg.codec.encode(refresh)), otp := None)])
            && r == Response(200, OtpAccepted(access), [SetCookie("accesstoken", access)]))
  {
  }

  /** Rewriting a found account without changing its email keeps it the one found. */
  lemma SameEmailLookup(w: World, id: UserId, u': User, email: Option<string>)
    requires UniqueAccounts(w) && FindByEmailField(w, email) == Some(id) && u'.email == w.users[id].email
    ensures FindByEmailField(w.(users := w.users[id := u']), email) == Some(id)
  {
    var w' := w.(users := w.users[id := u']);
    if email.None? {
      FirstStoredSameKeys(w.userOrder, w.users, w'.users);
    } else {
      var id' := FindByEmailField(w', email);
      assert id'.Some? by {
        assert id in w'.userOrder && w'.users[id].email == Trim(email.value);
      }
    }
  }

  /** Without an email, the code sent is checked against the code of the account created
      first: a verification succeeds exactly when that account's code is non-empty and equal
      to it (expiry variables set, schema accepted), and then stores the refresh token on
      that account, whose email was never sent. */
  lemma VerifyOtpWithoutEmail(cfg: Config, w: World, otp: Option<string>, now: int)
    requires Indexed(w.users, w.userOrder) && w.userOrder != []
    ensures var first := w.userOrder[0];
      var (w', r) := VerifyOtp(cfg, w, None, otp, now);
      && first in w.users
      && (r.status == 200 <==>
            && Truthy(w.users[first].otp) && w.users[first].otp == otp
            && cfg.env.jwtExpires.Some? && cfg.env.jwtRefreshExpires.Some? && UserSchemaValid(w.users[first]))
      && (r.status == 200 ==>
            && w'.users.Keys == w.users.Keys
            && w'.users[first].refreshToken == Some(cfg.codec.encode(UtilRefreshToken(cfg.env, first, now).value))
            && w'.users[first].otp.None?)
  {
    FindFirstUserIndexed(w);
    VerifyOtpStores(cfg, w, None, otp, now);
  }

  /** The code is single-use: once verified, the same request fails with "Invalid OTP". */
  lemma VerifyOtpOnce(cfg: Config, w: World, email: Option<string>, otp: Option<string>, now: int, later: int)
    requires VerifyOtp(cfg, w, email, otp, now).1.status == 200
    requires UniqueAccounts(w)
    ensures var w' := VerifyOtp(cfg, w, email, otp, now).0;
      VerifyOtp(cfg, w', email, otp, later) == (w', Reply(400, Message(InvalidOtp)))
  {
    var id := FindByEmailField(w, email).value;
    var u' := w.users[id].(refreshToken := Some(cfg.codec.encode(UtilRefreshToken(cfg.env, id, now).value)), otp := None);
    VerifyOtpStores(cfg, w, email, otp, now);
    var w' := w.(users := w.users[id := u']);
    assert VerifyOtp(cfg, w, email, otp, now).0 == w';
    SameEmailLookup(w, id, u', email);
    assert !Truthy(w'.users[id].otp);
  }

  lemma VerifyOtpKeeps(cfg: Config, w: World, email: Option<string>, otp: Option<string>, now: int)
    requires Sound(cfg.codec) && Invariant(cfg, w)
    ensures Invariant(cfg, VerifyOtp(cfg, w, email, otp, now).0)
  {
    var id := FindByEmailField(w, email);
    if VerifyOtp(cfg, w, email, otp, now).1.status == 200 {
      var t := UtilRefreshToken(cfg.env, id.value, now).value;
      assert cfg.codec.decode(cfg.codec.encode(t)) == Some(t);
      SetUserKeeps(cfg, w, id.value, w.users[id.value].(refreshToken := Some(cfg.codec.encode(t)), otp := None));
    }
  }

  // ---------------------------------------------------------------------------
  // Identity carried by access tokens
  // ---------------------------------------------------------------------------

  /** No access token the application signs (at login, at registration, at OTP verification,
      or on a silent refresh) carries an `id` claim, so `req.user.id` is never set by the
      gate for a token the application issued. */
  lemma IssuedTokensCarryNoId(cfg: Config, id: UserId, u: User, now: int)
    ensures LoginAccessToken(id, now).claims.id.None?
    ensures ModelAccessToken(id, u, cfg.env, now).claims.id.None?
    ensures UtilAccessToken(cfg.env, id, now).Some? ==> UtilAccessToken(cfg.env, id, now).value.claims.id.None?
    ensures RenewedAccessToken(id, now).claims.id.None?
  {
  }

  /** A login access token presented to the gate before it expires proceeds with claims
      whose `id` is missing. */
  lemma LoginTokenPassesWithoutId(cfg: Config, w: World, id: UserId, cookie: Option<string>, issued: int, now: int)
    requires Sound(cfg.codec) && Compact(cfg.codec) && issued <= now < issued + OneHour
    ensures var d := Decide(cfg, w, Some("Bearer " + cfg.codec.encode(LoginAccessToken(id, issued))), cookie, now);
      d == Proceed(Claims(Some(id), None, None, None)) && d.user.id.None?
  {
    var text := cfg.codec.encode(LoginAccessToken(id, issued));
    BearerRoundTrip("Bearer", text);
    SignedTokenVerdict(cfg.codec, AccessSecret, Claims(Some(id), None, None, None), issued, OneHour, now);
  }
}
