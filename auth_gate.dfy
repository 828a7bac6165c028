/** The `isLoggedIn` middleware (middlewares/authMiddleware.js): bearer-token extraction
    and the decision tree over the access token's verdict, the refresh cookie's verdict
    and the account lookup. The decision is a function of the request, the clock and the
    store; the class `Exchange` records what the middleware does to the request and the
    response when it acts on that decision. */
module AuthGate {
  import opened Common
  import opened Jwt
  import opened Store

  const NoAccessToken := "Unauthorized: No access token provided"
  const NoRefreshToken := "Unauthorized: No refresh token provided"
  const InvalidRefreshToken := "Unauthorized: Invalid refresh token"
  const RefreshUserNotFound := "Unauthorized: User not found"
  const InvalidAccessToken := "Unauthorized: Invalid access token"

  /** `req.headers["authorization"]?.split(" ")[1]`: the second space-separated word, or
      `undefined` when there is no header or no space in it. */
  function BearerToken(header: Option<string>): Option<string> {
    if header.None? then None
    else
      var parts := Split(header.value, ' ');
      if |parts| >= 2 then Some(parts[1]) else None
  }

  /** A header made of a space-free scheme, one space and a space-free token yields that
      token (the header the middleware itself sends back has this form). */
  lemma BearerRoundTrip(scheme: string, token: string)
    requires ' ' !in scheme && ' ' !in token
    ensures BearerToken(Some(scheme + " " + token)) == Some(token)
  {
    SplitAfterWord(scheme, ' ', token);
    assert scheme + " " + token == scheme + [' '] + token;
  }

  /** Whatever follows the second word (nothing, or a space and more) does not change the
      extracted token. */
  lemma BearerSecondWord(first: string, token: string, rest: string)
    requires ' ' !in first && ' ' !in token
    requires rest == [] || rest[0] == ' '
    ensures BearerToken(Some(first + " " + token + rest)) == Some(token)
  {
    assert first + " " + token + rest == first + [' '] + (token + rest);
    SplitAfterWord(first, ' ', token + rest);
    SplitFirstPiece(token, ' ', rest);
  }

  /** Conversely, an extracted token is a space-free word that sits right after the first
      space of the header and runs to the next space or to the end. */
  lemma BearerShape(h: string)
    requires BearerToken(Some(h)).Some?
    ensures var t := BearerToken(Some(h)).value;
      var i := FirstIndex(h, ' ');
      && ' ' !in h[..i] && ' ' !in t
      && i + 1 + |t| <= |h| && h[i + 1..i + 1 + |t|] == t
      && (i + 1 + |t| == |h| || h[i + 1 + |t|] == ' ')
  {
    var parts := Split(h, ' ');
    assert ' ' in h;
    var i := FirstIndex(h, ' ');
    var tail := h[i + 1..];
    assert parts == [h[..i]] + Split(tail, ' ');
    var t := parts[1];
    assert t == Split(tail, ' ')[0];
    if ' ' in tail {
      var j := FirstIndex(tail, ' ');
      assert t == tail[..j];
      assert h[i + 1..i + 1 + j] == tail[..j];
      assert h[i + 1 + j] == tail[j];
    } else {
      assert t == tail;
    }
  }

  /** What the middleware decides: a rejection (status and message, `next` not called),
      `next()` with `req.user` set to the decoded access claims, or `next()` after a silent
      refresh, with `req.user` set to `{ userId, role }` and a new `Authorization` header. */
  datatype Decision =
    | Reject(status: nat, message: string)
    | Proceed(user: Claims)
    | Refreshed(user: Claims, authorization: string)

  /** The access token the middleware issues on a silent refresh: `{ userId, role }` under
      JWT_SECRET for one hour. `role` is not an account field, so it is left out of the
      payload. */
  function RenewedAccessToken(id: UserId, now: int): (t: Token)
    ensures t.secret == AccessSecret && t.claims == Claims(Some(id), None, None, None)
    ensures t.exp == Some(now + OneHour)
  {
    Sign(AccessSecret, Claims(Some(id), None, None, None), now, Some(OneHour)).value
  }

  /** The decision tree, with the secret used for checking the refresh cookie as a
      parameter (the middleware as written uses JWT_SECRET for both tokens). */
  function DecideWith(refreshSecret: Secret, cfg: Config, w: World, header: Option<string>, cookie: Option<string>, now: int): Decision {
    var access := BearerToken(header);
    if !Truthy(access) then Reject(401, NoAccessToken)
    else
      match Verify(cfg.codec, access.value, AccessSecret, now)
      case Valid(claims) => Proceed(claims)
      case Invalid => Reject(401, InvalidAccessToken)
      case Expired =>
        if !Truthy(cookie) then Reject(401, NoRefreshToken)
        else
          match Verify(cfg.codec, cookie.value, refreshSecret, now)
          case Valid(refreshClaims) =>
            var found := FindUserWithToken(w, refreshClaims.userId, cookie.value);
            if found.None? then Reject(403, RefreshUserNotFound)
            else
              var user := Claims(found, None, None, None);
              Refreshed(user, "Bearer " + cfg.codec.encode(RenewedAccessToken(found.value, now)))
          case _ => Reject(403, InvalidRefreshToken)
  }

  /** `isLoggedIn` as written. */
  function Decide(cfg: Config, w: World, header: Option<string>, cookie: Option<string>, now: int): Decision {
    DecideWith(AccessSecret, cfg, w, header, cookie, now)
  }

  /** `isLoggedIn` with the refresh cookie checked against JWT_REFRESH_SECRET, the secret
      every stored refresh token is signed with. */
  function DecideCorrected(cfg: Config, w: World, header: Option<string>, cookie: Option<string>, now: int): Decision {
    DecideWith(RefreshSecret, cfg, w, header, cookie, now)
  }

  /** No access token (no header, no second word, or an empty one): 401, whatever the
      cookie and the store. */
  lemma MissingAccessToken(s: Secret, cfg: Config, w: World, header: Option<string>, cookie: Option<string>, now: int)
    requires !Truthy(BearerToken(header))
    ensures DecideWith(s, cfg, w, header, cookie, now) == Reject(401, NoAccessToken)
  {
  }

  /** A valid access token proceeds with exactly its decoded claims and no new token. */
  lemma ValidAccessToken(s: Secret, cfg: Config, w: World, header: Option<string>, cookie: Option<string>, now: int)
    requires Truthy(BearerToken(header))
    requires Verify(cfg.codec, BearerToken(header).value, AccessSecret, now).Valid?
    ensures DecideWith(s, cfg, w, header, cookie, now) == Proceed(Verify(cfg.codec, BearerToken(header).value, AccessSecret, now).claims)
  {
  }

  /** A verification failure other than expiry is a 401 that depends neither on the cookie
      nor on the store. */
  lemma InvalidAccessIgnoresCookie(s: Secret, cfg: Config, w: World, w': World, header: Option<string>, cookie: Option<string>, cookie': Option<string>, now: int)
    requires Truthy(BearerToken(header))
    requires Verify(cfg.codec, BearerToken(header).value, AccessSecret, now).Invalid?
    ensures DecideWith(s, cfg, w, header, cookie, now) == Reject(401, InvalidAccessToken)
    ensures DecideWith(s, cfg, w, header, cookie, now) == DecideWith(s, cfg, w', header, cookie', now)
  {
  }

  /** The expired-access branch: no cookie gives 401; a cookie that fails verification
      gives 403 "Invalid refresh token"; a verified cookie with no account holding that
      id and that exact stored token gives 403 "User not found". */
  lemma ExpiredAccessToken(s: Secret, cfg: Config, w: World, header: Option<string>, cookie: Option<string>, now: int)
    requires Truthy(BearerToken(header))
    requires Verify(cfg.codec, BearerToken(header).value, AccessSecret, now).Expired?
    ensures !Truthy(cookie) ==> DecideWith(s, cfg, w, header, cookie, now) == Reject(401, NoRefreshToken)
    ensures Truthy(cookie) && !Verify(cfg.codec, cookie.value, s, now).Valid? ==>
      DecideWith(s, cfg, w, header, cookie, now) == Reject(403, InvalidRefreshToken)
    ensures (Truthy(cookie) && Verify(cfg.codec, cookie.value, s, now).Valid? &&
             FindUserWithToken(w, Verify(cfg.codec, cookie.value, s, now).claims.userId, cookie.value).None?) ==>
      DecideWith(s, cfg, w, header, cookie, now) == Reject(403, RefreshUserNotFound)
  {
  }

  /** When every refresh check passes, the request proceeds as the account that holds the
      cookie, and the new `Authorization` header carries a bearer token that the
      middleware itself accepts for the next hour as that same account. */
  lemma RefreshIssuesWorkingToken(s: Secret, cfg: Config, w: World, header: Option<string>, cookie: Option<string>, now: int, later: int)
    requires Sound(cfg.codec) && Compact(cfg.codec)
    requires DecideWith(s, cfg, w, header, cookie, now).Refreshed?
    requires now <= later < now + OneHour
    ensures var d := DecideWith(s, cfg, w, header, cookie, now);
      && d.user.userId.Some? && d.user.userId.value in w.users
      && w.users[d.user.userId.value].refreshToken == cookie
      && d.user.id.None?
      && forall w2, cookie2 :: DecideWith(s, cfg, w2, Some(d.authorization), cookie2, later) == Proceed(d.user)
  {
    var d := DecideWith(s, cfg, w, header, cookie, now);
    var id := d.user.userId.value;
    var t := RenewedAccessToken(id, now);
    var text := cfg.codec.encode(t);
    assert d.authorization == "Bearer" + " " + text;
    assert ' ' !in "Bearer";
    BearerRoundTrip("Bearer", text);
    SignedTokenVerdict(cfg.codec, AccessSecret, Claims(Some(id), None, None, None), now, OneHour, later);
  }

  /** The silent refresh happens only for a refresh cookie that decodes to a token signed
      with JWT_SECRET, the secret line 25 of the middleware verifies it with. */
  lemma RefreshLooksUpOnly(cfg: Config, w: World, header: Option<string>, cookie: Option<string>, now: int)
    requires Decide(cfg, w, header, cookie, now).Refreshed?
    ensures cookie.Some? && cfg.codec.decode(cookie.value).Some?
    ensures cfg.codec.decode(cookie.value).value.secret == AccessSecret
  {
  }

  /** Under the store invariant the silent refresh of the middleware as written never
      happens: a cookie that verifies under JWT_SECRET was signed with it, while every
      stored refresh token was signed with JWT_REFRESH_SECRET, so the account lookup
      always misses. */
  lemma GateNeverRefreshes(cfg: Config, w: World, header: Option<string>, cookie: Option<string>, now: int)
    requires Invariant(cfg, w)
    ensures !Decide(cfg, w, header, cookie, now).Refreshed?
  {
    if Decide(cfg, w, header, cookie, now).Refreshed? {
      RefreshLooksUpOnly(cfg, w, header, cookie, now);
    }
  }

  /** With the corrected secret, an expired access token plus the refresh token stored on
      the account (and not yet expired) gives a silent refresh as that account. */
  lemma CorrectedGateRefreshes(cfg: Config, w: World, header: Option<string>, id: UserId, issued: int, span: nat, now: int)
    requires Sound(cfg.codec) && Compact(cfg.codec)
    requires Truthy(BearerToken(header))
    requires Verify(cfg.codec, BearerToken(header).value, AccessSecret, now).Expired?
    requires now < issued + span
    requires id in w.users
    requires w.users[id].refreshToken == Some(cfg.codec.encode(Sign(RefreshSecret, Claims(Some(id), None, None, None), issued, Some(span)).value))
    ensures DecideCorrected(cfg, w, header, w.users[id].refreshToken, now).Refreshed?
    ensures DecideCorrected(cfg, w, header, w.users[id].refreshToken, now).user == Claims(Some(id), None, None, None)
  {
    var text := cfg.codec.encode(Sign(RefreshSecret, Claims(Some(id), None, None, None), issued, Some(span)).value);
    SignedTokenVerdict(cfg.codec, RefreshSecret, Claims(Some(id), None, None, None), issued, span, now);
  }

  /** One request/response pair as the middleware sees it: `req.user`, the `Authorization`
      response header, the responses sent and the number of `next()` calls. */
  class Exchange {
    var user: Option<Claims>
    var authorization: Option<string>
    var sent: seq<(nat, string)>
    var nextCalls: nat

    constructor ()
      ensures user.None? && authorization.None? && sent == [] && nextCalls == 0
    {
      user := None;
      authorization := None;
      sent := [];
      nextCalls := 0;
    }

    /** Carry out a decision: send the rejection, or set `req.user` (and on a refresh the
        response header) and call `next` once. */
    method Apply(d: Decision)
      modifies this
      ensures d.Reject? ==>
        sent == old(sent) + [(d.status, d.message)] && nextCalls == old(nextCalls) &&
        user == old(user) && authorization == old(authorization)
      ensures d.Proceed? ==>
        sent == old(sent) && nextCalls == old(nextCalls) + 1 &&
        user == Some(d.user) && authorization == old(authorization)
      ensures d.Refreshed? ==>
        sent == old(sent) && nextCalls == old(nextCalls) + 1 &&
        user == Some(d.user) && authorization == Some(d.authorization)
      ensures |sent| + nextCalls == old(|sent|) + old(nextCalls) + 1
    {
      match d
      case Reject(status, message) =>
        sent := sent + [(status, message)];
      case Proceed(claims) =>
        user := Some(claims);
        nextCalls := nextCalls + 1;
      case Refreshed(claims, header) =>
        user := Some(claims);
        authorization := Some(header);
        nextCalls := nextCalls + 1;
    }
  }
}
