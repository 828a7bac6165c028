/** Signed bearer tokens as the application uses them through `jsonwebtoken`: the two
    environment secrets, the claims the application signs, the expiry arithmetic of
    `sign`/`verify`, and the two signers of utils/jwt.js.

    The compact JWS text of a token is abstract: a `Codec` turns a token into the text sent
    to clients and back. `decode` yielding `Some(t)` means "well formed, and its signature
    was made with `t.secret`"; checking that secret against the one `verify` is given is
    explicit below. */
module Jwt {
  import opened Common

  /** The HMAC secrets read from the environment: JWT_SECRET and JWT_REFRESH_SECRET.
      The model treats them as two different keys, both set. */
  datatype Secret = AccessSecret | RefreshSecret

  /** Payload fields the application signs or reads (`userId`, `id`, `role`, `email`);
      a field left out of a payload is `None`. */
  datatype Claims = Claims(userId: Option<UserId>, id: Option<UserId>, role: Option<string>, email: Option<string>)

  /** A signed token: the secret it was signed with, its claims, the issue time `iat` and
      the optional expiry time `exp`, both in seconds. */
  datatype Token = Token(secret: Secret, claims: Claims, iat: int, exp: Option<int>)

  /** The compact serialisation of signed tokens. */
  datatype Codec = Codec(encode: Token -> string, decode: string -> Option<Token>)

  /** What `jsonwebtoken` guarantees of its own output: `verify` reads back what `sign` wrote. */
  ghost predicate Sound(c: Codec) {
    forall t :: c.decode(c.encode(t)) == Some(t)
  }

  /** Compact JWS text is base64url segments joined by dots: never empty, never a space. */
  ghost predicate Compact(c: Codec) {
    forall t :: c.encode(t) != "" && ' ' !in c.encode(t)
  }

  /** Durations used by the source: "1h" and "7d". */
  const OneHour: nat := 3600
  const SevenDays: nat := 604800

  /** Expiry settings read from the environment, each already converted to seconds;
      `None` when the variable is not set. */
  datatype Env = Env(
    jwtExpires: Option<nat>,          // JWT_EXPIRES (utils/jwt.js, no default)
    jwtRefreshExpires: Option<nat>,   // JWT_REFRESH_EXPIRES (utils/jwt.js, no default)
    jwtAccessExpiry: Option<nat>,     // JWT_ACCESS_EXPIRY (user model, default "1h")
    jwtRefreshExpiry: Option<nat>)    // JWT_REFRESH_EXPIRY (user model, default "7d")

  /** `jwt.sign(claims, secret, { expiresIn })` at time `now`. An options object whose
      `expiresIn` is `undefined` fails `sign`'s option validation and throws (`None`). */
  function Sign(secret: Secret, claims: Claims, now: int, expiresIn: Option<nat>): (t: Option<Token>)
    ensures t.Some? <==> expiresIn.Some?
    ensures t.Some? ==> t.value.secret == secret && t.value.claims == claims && t.value.iat == now
    ensures t.Some? ==> t.value.exp == Some(now + expiresIn.value) && t.value.exp.value >= now
  {
    if expiresIn.None? then None
    else Some(Token(secret, claims, now, Some(now + expiresIn.value)))
  }

  /** The outcomes of `jwt.verify`: the decoded claims, a `TokenExpiredError`, or any other
      `JsonWebTokenError` (malformed text, signature made with another secret). */
  datatype Verdict = Valid(claims: Claims) | Expired | Invalid

  /** `jwt.verify(text, secret)` at time `now`: the signature is checked first, then
      `exp` (expired once `now >= exp`). */
  function Verify(c: Codec, text: string, secret: Secret, now: int): Verdict {
    match c.decode(text)
    case None => Invalid
    case Some(t) =>
      if t.secret != secret then Invalid
      else if t.exp.Some? && now >= t.exp.value then Expired
      else Valid(t.claims)
  }

  /** A token signed with `secret` verifies under it, with its own claims, until the
      expiry instant; from then on it is reported `Expired`, never `Invalid`; under the
      other secret it is `Invalid` whatever the time. */
  lemma SignedTokenVerdict(c: Codec, secret: Secret, claims: Claims, issued: int, span: nat, now: int)
    requires Sound(c)
    ensures var t := Sign(secret, claims, issued, Some(span)).value;
      && (now < issued + span ==> Verify(c, c.encode(t), secret, now) == Valid(claims))
      && (now >= issued + span ==> Verify(c, c.encode(t), secret, now) == Expired)
      && (forall other :: other != secret ==> Verify(c, c.encode(t), other, now) == Invalid)
  {
    var t := Sign(secret, claims, issued, Some(span)).value;
    assert c.decode(c.encode(t)) == Some(t);
  }

  /** Verification under a secret succeeds only for text decoding to a token signed
      with that secret. */
  lemma ValidMeansSignedWith(c: Codec, text: string, secret: Secret, now: int)
    requires Verify(c, text, secret, now).Valid?
    ensures c.decode(text).Some? && c.decode(text).value.secret == secret
    ensures Verify(c, text, secret, now).claims == c.decode(text).value.claims
  {
  }

  // ---------------------------------------------------------------------------
  // utils/jwt.js
  // ---------------------------------------------------------------------------

  /** utils/jwt.js `generateAccessToken(user)`: `{ userId }` under JWT_SECRET, expiring
      after JWT_EXPIRES (sign throws when it is unset). */
  function UtilAccessToken(env: Env, userId: UserId, now: int): Option<Token> {
    Sign(AccessSecret, Claims(Some(userId), None, None, None), now, env.jwtExpires)
  }

  /** utils/jwt.js `generateRefreshToken(user)`: `{ userId }` under JWT_REFRESH_SECRET,
      expiring after JWT_REFRESH_EXPIRES (sign throws when it is unset). */
  function UtilRefreshToken(env: Env, userId: UserId, now: int): Option<Token> {
    Sign(RefreshSecret, Claims(Some(userId), None, None, None), now, env.jwtRefreshExpires)
  }

  /** The utils/jwt.js signers: both carry only the user id, each under its own secret, and
      each fails exactly when its expiry variable is unset. */
  lemma UtilTokens(env: Env, userId: UserId, now: int)
    ensures UtilAccessToken(env, userId, now).Some? <==> env.jwtExpires.Some?
    ensures UtilRefreshToken(env, userId, now).Some? <==> env.jwtRefreshExpires.Some?
    ensures UtilAccessToken(env, userId, now).Some? ==>
      UtilAccessToken(env, userId, now).value.secret == AccessSecret &&
      UtilAccessToken(env, userId, now).value.claims == Claims(Some(userId), None, None, None)
    ensures UtilRefreshToken(env, userId, now).Some? ==>
      UtilRefreshToken(env, userId, now).value.secret == RefreshSecret &&
      UtilRefreshToken(env, userId, now).value.claims == Claims(Some(userId), None, None, None)
  {
  }
}
