/** The User collection (models/user.model.js): the document shape, the schema's setters,
    defaults and validators, the pre-save hashing hook, the two token methods that sign
    with the account's own data, and the static `verifyToken`. The `findOneAndDelete`
    hook works on the whole store and lives with it (module `Store`). */
module UserModel {
  import opened Common
  import opened Jwt

  /** The schema default of `profilePic`. */
  const DefaultProfilePic: string :=
    "https://plus.unsplash.com/premium_photo-1676068243734-cfdb9fc4ef59?w=600&auto=format&fit=crop&q=60&ixlib=rb-4.0.3&ixid=M3wxMjA3fDB8MHxzZWFyY2h8MTN8fGxpZ2h0JTIwYmx1ZSUyMGJhY2tncm91bmQlMjBpbWd8ZW58MHx8MHx8fDA%3D"

  /** `password: { minlength: 8 }`. */
  const MinPassword: nat := 8

  /** A stored account. `password` holds whatever the pre-save hook left there (the bcrypt
      hash once the document has been saved). */
  datatype User = User(
    username: string,
    email: string,
    password: string,
    profilePic: string,
    isVerified: bool,
    otp: Option<string>,
    refreshToken: Option<string>,
    followers: seq<UserId>,
    following: seq<UserId>,
    posts: seq<PostId>,
    likedPosts: seq<PostId>)

  /** An account together with its `_id`. */
  datatype UserDoc = UserDoc(id: UserId, user: User)

  /** What `populate(path, "username profilePic")` keeps of a referenced account. */
  datatype UserSummary = UserSummary(id: UserId, username: string, profilePic: string)

  /** What the schema validators accept for a whole account, as every `save()` checks it:
      `required` rejects an empty username, email or password, and `minlength` a password
      under 8 UTF-16 code units. The other paths carry no validator. */
  predicate UserSchemaValid(u: User) {
    u.username != "" && u.email != "" && Utf16Length(u.password) >= MinPassword
  }

  /** `new User({ username, email, password })` validated before saving: the `trim` setters
      run on assignment, then `required` rejects an empty trimmed username or email and
      `minlength` rejects a password under 8 UTF-16 code units (`None`). The other fields take
      their defaults: the default picture, not verified, no OTP, no refresh token, empty
      lists. Uniqueness is an index of the collection and is checked when inserting. */
  function NewUser(username: string, email: string, password: string): (r: Option<User>)
    ensures r.Some? <==> Trim(username) != "" && Trim(email) != "" && Utf16Length(password) >= MinPassword
    ensures r.Some? ==> UserSchemaValid(r.value)
    ensures r.Some? ==>
      && r.value.username == Trim(username) && r.value.email == Trim(email) && r.value.password == password
      && r.value.profilePic == DefaultProfilePic && !r.value.isVerified
      && r.value.otp.None? && r.value.refreshToken.None?
      && r.value.followers == [] && r.value.following == [] && r.value.posts == [] && r.value.likedPosts == []
  {
    if Trim(username) == "" || Trim(email) == "" || Utf16Length(password) < MinPassword then None
    else Some(User(Trim(username), Trim(email), password, DefaultProfilePic, false, None, None, [], [], [], []))
  }

  /** The stored username and email carry no surrounding whitespace. */
  lemma NewUserTrimmed(username: string, email: string, password: string)
    requires NewUser(username, email, password).Some?
    ensures var u := NewUser(username, email, password).value;
      && !IsJsSpace(u.username[0]) && !IsJsSpace(u.username[|u.username| - 1])
      && !IsJsSpace(u.email[0]) && !IsJsSpace(u.email[|u.email| - 1])
  {
    TrimPiece(username);
    TrimPiece(email);
  }

  /** The pre-save hook: the password is replaced by its hash when, and only when, it was
      modified since the document was loaded. */
  function PreSaved(u: User, passwordModified: bool, hash: string -> string): (r: User)
    ensures passwordModified ==> r == u.(password := hash(u.password))
    ensures !passwordModified ==> r == u
  {
    if passwordModified then u.(password := hash(u.password)) else u
  }

  /** The token `generateAccessToken` signs: `{ userId, email }` under JWT_SECRET, expiring
      after JWT_ACCESS_EXPIRY, or one hour when that is unset. */
  function ModelAccessToken(id: UserId, u: User, env: Env, now: int): (t: Token)
    ensures t.secret == AccessSecret && t.claims == Claims(Some(id), None, None, Some(u.email))
    ensures t.iat == now && t.exp == Some(now + env.jwtAccessExpiry.GetOr(OneHour))
  {
    Sign(AccessSecret, Claims(Some(id), None, None, Some(u.email)), now, Some(env.jwtAccessExpiry.GetOr(OneHour))).value
  }

  /** The token `generateRefreshToken` signs: `{ userId }` under JWT_REFRESH_SECRET,
      expiring after JWT_REFRESH_EXPIRY, or seven days when that is unset. */
  function ModelRefreshToken(id: UserId, env: Env, now: int): (t: Token)
    ensures t.secret == RefreshSecret && t.claims == Claims(Some(id), None, None, None)
    ensures t.iat == now && t.exp == Some(now + env.jwtRefreshExpiry.GetOr(SevenDays))
  {
    Sign(RefreshSecret, Claims(Some(id), None, None, None), now, Some(env.jwtRefreshExpiry.GetOr(SevenDays))).value
  }

  /** The secret `verifyToken(token, type = "access")` selects. */
  function SecretFor(tokenType: Option<string>): (s: Secret)
    ensures s == RefreshSecret <==> tokenType == Some("refresh")
  {
    if tokenType.GetOr("access") == "refresh" then RefreshSecret else AccessSecret
  }

  /** The static `verifyToken`: the decoded claims, or `None` (null) whenever `jwt.verify`
      throws, expiry included. */
  function VerifyToken(c: Codec, text: string, tokenType: Option<string>, now: int): (r: Option<Claims>)
    ensures r.Some? <==> Verify(c, text, SecretFor(tokenType), now).Valid?
    ensures r.Some? ==> r.value == Verify(c, text, SecretFor(tokenType), now).claims
  {
    match Verify(c, text, SecretFor(tokenType), now)
    case Valid(claims) => Some(claims)
    case _ => None
  }

  /** A refresh token made by `generateRefreshToken` is accepted by `verifyToken` with type
      "refresh" until it expires, and rejected with the default type. */
  lemma RefreshTokenRoundTrip(c: Codec, id: UserId, env: Env, issued: int, now: int)
    requires Sound(c)
    ensures var text := c.encode(ModelRefreshToken(id, env, issued));
      && (now < issued + env.jwtRefreshExpiry.GetOr(SevenDays) ==>
            VerifyToken(c, text, Some("refresh"), now) == Some(Claims(Some(id), None, None, None)))
      && (now >= issued + env.jwtRefreshExpiry.GetOr(SevenDays) ==> VerifyToken(c, text, Some("refresh"), now).None?)
      && VerifyToken(c, text, None, now).None?
  {
    SignedTokenVerdict(c, RefreshSecret, Claims(Some(id), None, None, None), issued, env.jwtRefreshExpiry.GetOr(SevenDays), now);
  }

  /** An access token made by `generateAccessToken` is accepted by `verifyToken` with the
      default type until it expires, and rejected with type "refresh". */
  lemma AccessTokenRoundTrip(c: Codec, id: UserId, u: User, env: Env, issued: int, now: int)
    requires Sound(c)
    ensures var text := c.encode(ModelAccessToken(id, u, env, issued));
      && (now < issued + env.jwtAccessExpiry.GetOr(OneHour) ==>
            VerifyToken(c, text, None, now) == Some(Claims(Some(id), None, None, Some(u.email))))
      && VerifyToken(c, text, Some("refresh"), now).None?
  {
    SignedTokenVerdict(c, AccessSecret, Claims(Some(id), None, None, Some(u.email)), issued, env.jwtAccessExpiry.GetOr(OneHour), now);
  }

  /** A user document in memory: its `_id`, its field values, and whether `password` has
      been assigned since it was created or loaded. */
  class UserDocument {
    const id: UserId
    var user: User
    var passwordModified: bool

    /** A document built by `new User(...)` / `User.create(...)`: every field set counts as
        modified. */
    constructor Create(id: UserId, u: User)
      ensures this.id == id && user == u && passwordModified
    {
      this.id := id;
      user := u;
      passwordModified := true;
    }

    /** A document returned by a query: nothing modified yet. */
    constructor Load(id: UserId, u: User)
      ensures this.id == id && user == u && !passwordModified
    {
      this.id := id;
      user := u;
      passwordModified := false;
    }

    /** `userSchema.pre("save")`: hash the password if it was modified, else leave it. */
    method PreSave(hash: string -> string)
      modifies this
      ensures user == PreSaved(old(user), old(passwordModified), hash)
      ensures passwordModified == old(passwordModified)
    {
      if !passwordModified {
        return;
      }
      user := user.(password := hash(user.password));
    }

    /** `generateAccessToken()`: signs with the document's id and email; nothing changes. */
    function GenerateAccessToken(env: Env, now: int): (t: Token)
      reads this
      ensures t == ModelAccessToken(id, user, env, now)
    {
      ModelAccessToken(id, user, env, now)
    }

    /** `generateRefreshToken()`: signs a refresh token, keeps it in `this.refreshToken`
        (in memory, not saved) and returns that same text. */
    method GenerateRefreshToken(c: Codec, env: Env, now: int) returns (text: string)
      modifies this
      ensures text == c.encode(ModelRefreshToken(id, env, now))
      ensures user == old(user).(refreshToken := Some(text))
      ensures passwordModified == old(passwordModified)
    {
      text := c.encode(ModelRefreshToken(id, env, now));
      user := user.(refreshToken := Some(text));
    }
  }
}
