/** controllers/userController.js: the follow toggle, the three read-through cached
    queries, profile update, logout, and account deletion, each as a transition from the
    store before the request to the store after it and the response sent.

    The requester is the `req.user` object the gate attached (`Claims`); each handler reads
    the field of it that the source reads. */
module UserController {
  import opened Common
  import opened Jwt
  import opened PostModel
  import opened UserModel
  import opened Cache
  import opened Store
  import opened Http

  const CannotFollowSelf := "You can't follow yourself!"
  const FollowTargetMissing := "User not found!"
  const Followed := "User followed!"
  const Unfollowed := "User unfollowed!"
  const ServerErrorBang := "Internal Server Error!"

  // ---------------------------------------------------------------------------
  // followUser
  // ---------------------------------------------------------------------------

  /** The follow toggle with the acting account's id `me` as it arrives in the handler.
      Both accounts are looked up before the 404 check; when the target exists but the
      acting account does not, reading `currentUser.following` throws and the catch
      answers 500. */
  function FollowAs(w: World, target: UserId, me: Option<UserId>): (World, Response) {
    if me == Some(target) then (w, Reply(400, Outcome(false, CannotFollowSelf)))
    else if target !in w.users then (w, Reply(404, Outcome(false, FollowTargetMissing)))
    else if me.None? || me.value !in w.users then (w, Reply(500, Outcome(false, ServerErrorBang)))
    else
      FollowToggled(w, target, me.value)
  }

  /** The toggle itself: the two writes, then the deletion of both `user:` entries. */
  function FollowToggled(w: World, target: UserId, m: UserId): (World, Response)
    requires m != target && m in w.users && target in w.users
  {
    var w1 := FollowWrites(w, target, m);
    (w1.(cache := Del(Del(w1.cache, UserKey(m)), UserKey(target))),
     Reply(200, Outcome(true, if target in w.users[m].following then Unfollowed else Followed)))
  }

  /** The two `findByIdAndUpdate` calls of the toggle: `$pull` from both lists when `m`
      already follows `target`, `$push` onto both otherwise. */
  function FollowWrites(w: World, target: UserId, m: UserId): (r: World)
    requires m != target && m in w.users && target in w.users
    ensures r == w.(users := r.users)
    ensures r.users.Keys == w.users.Keys
    ensures forall o :: o in w.users && o != m && o != target ==> r.users[o] == w.users[o]
    ensures target in w.users[m].following ==>
      && r.users[m] == w.users[m].(following := RemoveAll(w.users[m].following, target))
      && r.users[target] == w.users[target].(followers := RemoveAll(w.users[target].followers, m))
    ensures target !in w.users[m].following ==>
      && r.users[m] == w.users[m].(following := w.users[m].following + [target])
      && r.users[target] == w.users[target].(followers := w.users[target].followers + [m])
  {
    if target in w.users[m].following then
      UpdateUser(UpdateUser(w, m, PullFollowing(target)), target, PullFollower(m))
    else
      UpdateUser(UpdateUser(w, m, PushFollowing(target)), target, PushFollower(m))
  }

  /** `followUser` as written: the acting id is `req.user.id`. */
  function Follow(w: World, target: UserId, reqUser: Claims): (World, Response) {
    FollowAs(w, target, reqUser.id)
  }

  /** `followUser` reading `req.user.userId`, the field the gate sets. */
  function FollowCorrected(w: World, target: UserId, reqUser: Claims): (World, Response) {
    FollowAs(w, target, reqUser.userId)
  }

  /** Self-follow gives 400 and a missing target 404; neither changes anything. */
  lemma FollowGuards(w: World, target: UserId, me: Option<UserId>)
    ensures me == Some(target) ==> FollowAs(w, target, me) == (w, Reply(400, Outcome(false, CannotFollowSelf)))
    ensures me != Some(target) && target !in w.users ==>
      FollowAs(w, target, me) == (w, Reply(404, Outcome(false, FollowTargetMissing)))
  {
  }

  /** Between two distinct existing accounts: when `me` does not follow `target`, each
      list gets the other's id appended and the answer is "User followed!"; when it does,
      every occurrence is removed from both lists and the answer is "User unfollowed!".
      No other account, post or comment changes. */
  lemma FollowToggle(w: World, target: UserId, m: UserId)
    requires m != target && m in w.users && target in w.users
    ensures var (w', r) := FollowAs(w, target, Some(m));
      && r.status == 200
      && w'.users.Keys == w.users.Keys
      && (forall o :: o in w.users && o != m && o != target ==> w'.users[o] == w.users[o])
      && w'.posts == w.posts && w'.comments == w.comments && w'.blacklist == w.blacklist
      && (target !in w.users[m].following ==>
            && w'.users[m] == w.users[m].(following := w.users[m].following + [target])
            && w'.users[target] == w.users[target].(followers := w.users[target].followers + [m])
            && r.body == Outcome(true, Followed))
      && (target in w.users[m].following ==>
            && w'.users[m] == w.users[m].(following := RemoveAll(w.users[m].following, target))
            && w'.users[target] == w.users[target].(followers := RemoveAll(w.users[target].followers, m))
            && r.body == Outcome(true, Unfollowed))
  {
  }

  /** Both branches delete exactly `user:<me>` and `user:<target>`; every other entry,
      `allUsers` and `userPosts:` entries included, is kept as it was. */
  lemma FollowCacheKeys(w: World, target: UserId, m: UserId)
    requires m != target && m in w.users && target in w.users
    ensures var w' := FollowAs(w, target, Some(m)).0;
      && w'.cache.Keys == w.cache.Keys - {UserKey(m), UserKey(target)}
      && (forall k :: k in w'.cache ==> w'.cache[k] == w.cache[k])
      && (AllUsersKey in w.cache ==> AllUsersKey in w'.cache && w'.cache[AllUsersKey] == w.cache[AllUsersKey])
      && (forall o :: UserPostsKey(o) in w.cache ==> UserPostsKey(o) in w'.cache)
  {
    KeysDistinct(m, m);
    KeysDistinct(target, target);
    forall o | UserPostsKey(o) in w.cache ensures UserPostsKey(o) in FollowAs(w, target, Some(m)).0.cache {
      KeysDistinct(m, o);
      KeysDistinct(target, o);
    }
  }

  /** Following and then following again (which unfollows) from a state where neither
      list holds the other's id gives both accounts back exactly as they were. */
  lemma FollowTwiceRestores(w: World, target: UserId, m: UserId)
    requires m != target && m in w.users && target in w.users
    requires target !in w.users[m].following && m !in w.users[target].followers
    ensures var w1 := FollowAs(w, target, Some(m)).0;
      var w2 := FollowAs(w1, target, Some(m)).0;
      w2.users == w.users && FollowAs(w1, target, Some(m)).1.body == Outcome(true, Unfollowed)
  {
    var um := w.users[m];
    var ut := w.users[target];
    var w1 := FollowWrites(w, target, m);
    assert FollowAs(w, target, Some(m)).0.users == w1.users;
    assert target in w1.users[m].following;
    var w2 := FollowWrites(w1, target, m);
    assert FollowAs(w1.(cache := Del(Del(w1.cache, UserKey(m)), UserKey(target))), target, Some(m)).0.users == w2.users;
    AppendThenRemove(um.following, target);
    AppendThenRemove(ut.followers, m);
    assert w2.users[m] == um;
    assert w2.users[target] == ut;
    assert w2.users == w.users;
  }

  /** As written, a requester without an `id` claim (every requester the gate lets
      through: it only sets `userId`) can never follow anyone: a missing target is 404,
      an existing one 500, and nothing changes. */
  lemma FollowAsWired(w: World, target: UserId, reqUser: Claims)
    requires reqUser.id.None?
    ensures Follow(w, target, reqUser).0 == w
    ensures Follow(w, target, reqUser).1.status == (if target in w.users then 500 else 404)
  {
  }

  /** Reading `userId` instead, an existing account can follow another existing one. */
  lemma FollowCorrectedWorks(w: World, target: UserId, reqUser: Claims)
    requires reqUser.userId.Some? && reqUser.userId.value in w.users
    requires target in w.users && reqUser.userId.value != target
    ensures FollowCorrected(w, target, reqUser).1.status == 200
  {
  }

  lemma FollowWritesKeeps(cfg: Config, w: World, target: UserId, m: UserId)
    requires Invariant(cfg, w) && m != target && m in w.users && target in w.users
    ensures Invariant(cfg, FollowWrites(w, target, m))
  {
    if target in w.users[m].following {
      UpdateUserKeeps(cfg, w, m, PullFollowing(target));
      UpdateUserKeeps(cfg, UpdateUser(w, m, PullFollowing(target)), target, PullFollower(m));
    } else {
      UpdateUserKeeps(cfg, w, m, PushFollowing(target));
      UpdateUserKeeps(cfg, UpdateUser(w, m, PushFollowing(target)), target, PushFollower(m));
    }
  }

  lemma FollowKeeps(cfg: Config, w: World, target: UserId, me: Option<UserId>)
    requires Invariant(cfg, w)
    ensures Invariant(cfg, FollowAs(w, target, me).0)
  {
    if me != Some(target) && target in w.users && me.Some? && me.value in w.users {
      var m := me.value;
      FollowWritesKeeps(cfg, w, target, m);
      var w1 := FollowWrites(w, target, m);
      CacheKeeps(cfg, w1, Del(Del(w1.cache, UserKey(m)), UserKey(target)));
      assert FollowAs(w, target, me).0 == FollowToggled(w, target, m).0;
    }
  }

  // ---------------------------------------------------------------------------
  // Read-through cached queries
  // ---------------------------------------------------------------------------

  /** The profile built on a cache miss. `stats.posts` is taken after `populate`, so it
      counts the referenced posts that still exist. */
  function ProfileOf(w: World, id: UserId, u: User): (v: ProfileView)
    ensures v.id == id && v.username == u.username && v.profilePic == u.profilePic
    ensures v.posts == PopulatePosts(w, u.posts)
    ensures v.stats == Stats(|v.posts|, |u.followers|, |u.following|)
  {
    var posts := PopulatePosts(w, u.posts);
    ProfileView(id, u.username, u.profilePic, posts, Stats(|posts|, |u.followers|, |u.following|))
  }

  /** `getUserProfile` for `req.user.userId`. */
  function GetUserProfile(w: World, reqUser: Claims): (World, Response) {
    var key := UserKey(Interpolate(reqUser.userId));
    match Get(w.cache, key)
    case Some(snap) => (w, Reply(200, Json(snap)))
    case None =>
      match FindUser(w, reqUser.userId)
      case None => (w, Reply(404, ErrorText("User not found")))
      case Some(u) =>
        var snap := ProfileSnap(ProfileOf(w, reqUser.userId.value, u));
        (w.(cache := Set(w.cache, key, snap, ProfileTtl)), Reply(200, Json(snap)))
  }

  /** `getUserPosts` for the path parameter `userId`. */
  function GetUserPosts(w: World, userId: UserId): (World, Response) {
    var key := UserPostsKey(userId);
    match Get(w.cache, key)
    case Some(snap) => (w, Reply(200, PostsOf(snap)))
    case None =>
      var snap := PostsSnap(PostsByOwner(w, userId));
      (w.(cache := Set(w.cache, key, snap, UserPostsTtl)), Reply(200, PostsOf(snap)))
  }

  /** `getAllUser`. */
  function GetAllUser(w: World): (World, Response) {
    match Get(w.cache, AllUsersKey)
    case Some(snap) => (w, Reply(200, Json(snap)))
    case None =>
      var snap := UsersSnap(AllUsers(w));
      (w.(cache := Set(w.cache, AllUsersKey, snap, AllUsersTtl)), Reply(200, Json(snap)))
  }

  /** A hit on any of the three keys answers with the cached value and changes nothing. */
  lemma CacheHits(w: World, reqUser: Claims, userId: UserId)
    ensures var key := UserKey(Interpolate(reqUser.userId));
      key in w.cache ==> GetUserProfile(w, reqUser) == (w, Reply(200, Json(w.cache[key].value)))
    ensures UserPostsKey(userId) in w.cache ==>
      GetUserPosts(w, userId) == (w, Reply(200, PostsOf(w.cache[UserPostsKey(userId)].value)))
    ensures AllUsersKey in w.cache ==> GetAllUser(w) == (w, Reply(200, Json(w.cache[AllUsersKey].value)))
  {
  }

  /** A miss loads from the store, answers with what it loaded, and caches exactly that
      under the key with expiry 3600, 1800 and 3600 seconds; nothing else changes. A
      profile miss for an unknown account is a 404 that caches nothing. */
  lemma CacheMisses(w: World, reqUser: Claims, userId: UserId)
    ensures var key := UserKey(Interpolate(reqUser.userId));
      key !in w.cache ==>
        var (w', r) := GetUserProfile(w, reqUser);
        if FindUser(w, reqUser.userId).Some? then
          && r.status == 200 && r.body.Json? && r.body.snapshot.ProfileSnap?
          && w' == w.(cache := w.cache[key := Entry(r.body.snapshot, ProfileTtl)])
        else w' == w && r == Reply(404, ErrorText("User not found"))
    ensures UserPostsKey(userId) !in w.cache ==>
      var (w', r) := GetUserPosts(w, userId);
      r == Reply(200, PostsOf(PostsSnap(PostsByOwner(w, userId)))) &&
      w' == w.(cache := w.cache[UserPostsKey(userId) := Entry(PostsSnap(PostsByOwner(w, userId)), UserPostsTtl)])
    ensures AllUsersKey !in w.cache ==>
      var (w', r) := GetAllUser(w);
      r == Reply(200, Json(UsersSnap(AllUsers(w)))) &&
      w' == w.(cache := w.cache[AllUsersKey := Entry(UsersSnap(AllUsers(w)), AllUsersTtl)])
  {
  }

  /** A repeated read gives the same answer and leaves the store as the first read left it. */
  lemma ReadsRepeat(w: World, reqUser: Claims, userId: UserId)
    ensures var (w1, r1) := GetUserProfile(w, reqUser); GetUserProfile(w1, reqUser) == (w1, r1)
    ensures var (w1, r1) := GetUserPosts(w, userId); GetUserPosts(w1, userId) == (w1, r1)
    ensures var (w1, r1) := GetAllUser(w); GetAllUser(w1) == (w1, r1)
  {
  }

  /** The freshly built profile counts the account's lists at load time; when every post
      it references exists, `stats.posts` is the length of its `posts`. */
  lemma ProfileStats(w: World, id: UserId, u: User)
    ensures ProfileOf(w, id, u).stats.followers == |u.followers|
    ensures ProfileOf(w, id, u).stats.following == |u.following|
    ensures (forall p :: p in u.posts ==> p in w.posts) ==> ProfileOf(w, id, u).stats.posts == |u.posts|
  {
    if forall p :: p in u.posts ==> p in w.posts {
      FilterAll(u.posts, x => x in w.posts);
    }
  }

  /** The posts listed on a miss are exactly the stored posts of that owner, newest first. */
  lemma UserPostsListing(w: World, userId: UserId)
    requires Indexed(w.posts, w.postOrder)
    ensures forall d :: d in PostsByOwner(w, userId) <==> d.id in w.posts && d.post == w.posts[d.id] && d.post.user == userId
    ensures SortedDesc(PostsByOwner(w, userId), PostStamp)
  {
  }

  /** The full listing holds every stored account, password hash and pending OTP
      included, since `User.find()` selects every field. */
  lemma AllUsersListing(w: World)
    requires Indexed(w.users, w.userOrder)
    ensures forall d :: d in AllUsers(w) <==> d.id in w.users && d.user == w.users[d.id]
  {
    var ids := Present(w.userOrder, w.users);
    forall d: UserDoc | d.id in w.users && d.user == w.users[d.id] ensures d in AllUsers(w) {
      var k :| 0 <= k < |ids| && ids[k] == d.id;
      assert AllUsers(w)[k] == d;
    }
  }

  // ---------------------------------------------------------------------------
  // updateUserProfile
  // ---------------------------------------------------------------------------

  /** `updateUserProfile` for `req.user.userId`. The update object is
      `{ username, bio, profilePic? }`: an undefined `username` is dropped from the update,
      a defined one goes through the `trim` setter; `bio` is not a schema path and is
      dropped; `profilePic` is set only when a file was uploaded. Validators do not run on
      this update, but the unique index does: a username held by another account fails
      with a duplicate key error (500). */
  function UpdateUserProfile(w: World, reqUser: Claims, username: Option<string>, bio: Option<string>, file: Option<string>): (World, Response) {
    match FindUser(w, reqUser.userId)
    case None => (w, Reply(404, Outcome(false, "User not found")))
    case Some(u) =>
      var id := reqUser.userId.value;
      var name := if username.Some? then Trim(username.value) else u.username;
      var pic := if file.Some? then file.value else u.profilePic;
      if UsernameTaken(w, id, name) then (w, Reply(500, Outcome(false, "Internal server error")))
      else ProfileSaved(w, id, u.(username := name, profilePic := pic))
  }

  /** Another account already holds `name`: the unique index rejects the update. */
  predicate UsernameTaken(w: World, id: UserId, name: string) {
    exists o :: o in w.users && o != id && w.users[o].username == name
  }

  /** The write of the updated document `u`, the deletion of `user:<id>`, and the answer. */
  function ProfileSaved(w: World, id: UserId, u: User): (World, Response) {
    (w.(users := w.users[id := u], cache := Del(w.cache, UserKey(id))), Reply(200, ProfileUpdated(UserDoc(id, u))))
  }

  /** An unknown account gives 404 and no change. */
  lemma UpdateProfileUnknown(w: World, reqUser: Claims, username: Option<string>, bio: Option<string>, file: Option<string>)
    requires FindUser(w, reqUser.userId).None?
    ensures UpdateUserProfile(w, reqUser, username, bio, file) == (w, Reply(404, Outcome(false, "User not found")))
  {
  }

  /** For an existing account the update either fails with 500 and changes nothing, or
      succeeds: only that account changes, and only in `username` (when one was sent) and
      `profilePic` (when a file was uploaded); only `user:<id>` leaves the cache; the
      answer carries the updated account. */
  lemma UpdateProfileEffect(w: World, reqUser: Claims, username: Option<string>, bio: Option<string>, file: Option<string>)
    requires FindUser(w, reqUser.userId).Some?
    ensures var (w', r) := UpdateUserProfile(w, reqUser, username, bio, file);
      r.status == 500 ==> w' == w
    ensures var (w', r) := UpdateUserProfile(w, reqUser, username, bio, file);
      var id := reqUser.userId.value;
      var u := w.users[id];
      r.status != 500 ==>
        && r.status == 200
        && w'.users == w.users[id := u.(username := (if username.Some? then Trim(username.value) else u.username),
                                        profilePic := (if file.Some? then file.value else u.profilePic))]
        && w'.cache == w.cache - {UserKey(id)}
        && w'.posts == w.posts && w'.comments == w.comments && w'.blacklist == w.blacklist
        && r.body == ProfileUpdated(UserDoc(id, w'.users[id]))
  {
  }

  lemma UpdateProfileKeeps(cfg: Config, w: World, reqUser: Claims, username: Option<string>, bio: Option<string>, file: Option<string>)
    requires Invariant(cfg, w)
    ensures Invariant(cfg, UpdateUserProfile(w, reqUser, username, bio, file).0)
  {
    var u := FindUser(w, reqUser.userId);
    if u.Some? {
      var id := reqUser.userId.value;
      var name := if username.Some? then Trim(username.value) else u.value.username;
      var pic := if file.Some? then file.value else u.value.profilePic;
      if !UsernameTaken(w, id, name) {
        var u' := u.value.(username := name, profilePic := pic);
        RenameUserKeeps(cfg, w, id, u');
        CacheKeeps(cfg, w.(users := w.users[id := u']), Del(w.cache, UserKey(id)));
      }
    }
  }

  // ---------------------------------------------------------------------------
  // logoutUser
  // ---------------------------------------------------------------------------

  /** `logoutUser`: adds the refresh cookie to the in-process blacklist and clears it. */
  function Logout(w: World, cookie: Option<string>): (World, Response) {
    if !Truthy(cookie) then (w, Reply(401, Message("Unauthorized: No token found")))
    else (w.(blacklist := w.blacklist + {cookie.value}), Response(200, Message("Logout successful"), [ClearCookie("refreshToken")]))
  }

  /** Logout without a cookie is 401 and changes nothing; with one, the token joins the
      blacklist, the cookie is cleared, and nothing else changes: the stored refresh token
      stays on the account. */
  lemma LogoutEffect(w: World, cookie: Option<string>)
    ensures !Truthy(cookie) ==> Logout(w, cookie) == (w, Reply(401, Message("Unauthorized: No token found")))
    ensures Truthy(cookie) ==>
      && Logout(w, cookie).0 == w.(blacklist := w.blacklist + {cookie.value})
      && cookie.value in Logout(w, cookie).0.blacklist
      && Logout(w, cookie).1 == Response(200, Message("Logout successful"), [ClearCookie("refreshToken")])
  {
  }

  // ---------------------------------------------------------------------------
  // deleteUserAccount
  // ---------------------------------------------------------------------------

  /** `Post.deleteMany({ userId })`: `userId` is not a Post path. Under `strictQuery` the
      path is stripped and the filter matches every post; otherwise it matches none. */
  function DeleteManyByUserIdPath(cfg: Config, w: World): World {
    if cfg.strictQuery then DeleteAllPosts(w) else w
  }

  /** `deleteUserAccount` for the path parameter `userId`. */
  function DeleteUserAccount(cfg: Config, w: World, userId: UserId): (World, Response) {
    var w1 := DeleteManyByUserIdPath(cfg, w);
    if userId !in w1.users then (w1, Reply(404, Message("User not found")))
    else RemoveAccount(w1, userId)
  }

  /** The steps after the existence check: `findByIdAndDelete` (with its hook), then the
      two cache deletions. */
  function RemoveAccount(w: World, userId: UserId): (World, Response) {
    var w2 := FindByIdAndDelete(w, userId);
    (w2.(cache := Del(Del(w2.cache, UserKey(userId)), UserPostsKey(userId))), Reply(200, Message("Account deleted successfully")))
  }

  /** The post deletion runs before the existence check: for an unknown account the answer
      is 404, yet under `strictQuery` every post is gone; without it nothing changes. */
  lemma DeleteUnknownAccount(cfg: Config, w: World, userId: UserId)
    requires userId !in w.users
    ensures DeleteUserAccount(cfg, w, userId).1 == Reply(404, Message("User not found"))
    ensures DeleteUserAccount(cfg, w, userId).0.users == w.users
    ensures cfg.strictQuery ==> DeleteUserAccount(cfg, w, userId).0.posts == map[]
    ensures !cfg.strictQuery ==> DeleteUserAccount(cfg, w, userId).0 == w
  {
  }

  /** Deleting an existing account removes it and deletes `user:<id>` and `userPosts:<id>`
      from the cache, keeping `allUsers` and every other entry. Its posts go with it (every
      post under `strictQuery`, otherwise through the `findOneAndDelete` hook exactly the
      posts it owns). Nothing else changes: other accounts keep their follow lists, even
      where those still name the deleted account. */
  lemma DeleteExistingAccount(cfg: Config, w: World, userId: UserId)
    requires userId in w.users
    ensures var (w', r) := DeleteUserAccount(cfg, w, userId);
      && r == Reply(200, Message("Account deleted successfully"))
      && w'.users == w.users - {userId} && w'.userOrder == RemoveAll(w.userOrder, userId)
      && w'.cache.Keys == w.cache.Keys - {UserKey(userId), UserPostsKey(userId)}
      && (forall k :: k in w'.cache ==> w'.cache[k] == w.cache[k])
      && (AllUsersKey in w.cache ==> AllUsersKey in w'.cache)
      && (cfg.strictQuery ==> w'.posts == map[])
      && (!cfg.strictQuery ==> forall p :: p in w'.posts <==> p in w.posts && w.posts[p].user != userId)
      && (forall p :: p in w'.posts ==> p in w.posts && w'.posts[p] == w.posts[p])
      && (cfg.strictQuery ==> w'.postOrder == [])
      && (!cfg.strictQuery ==> w'.postOrder == Present(w.postOrder, w'.posts))
      && w'.comments == w.comments && w'.commentOrder == w.commentOrder && w'.blacklist == w.blacklist
  {
    KeysDistinct(userId, userId);
  }

  lemma DeleteAccountKeeps(cfg: Config, w: World, userId: UserId)
    requires Invariant(cfg, w)
    ensures Invariant(cfg, DeleteUserAccount(cfg, w, userId).0)
  {
    var w1 := DeleteManyByUserIdPath(cfg, w);
    if cfg.strictQuery {
      DeleteAllPostsKeeps(cfg, w);
    }
    FindByIdAndDeleteKeeps(cfg, w1, userId);
  }
}
