/** The running backend: the three collections, the Redis cache and the in-process refresh
    token blacklist as the mutable state of one object, with one method per request
    handler. Each method performs the handler's steps on that state, in the handler's
    order, and is proved to leave exactly the state and send exactly the response that the
    handler's transition function (in the controller modules) prescribes, and to keep the
    store invariant. */
module Server {
  import opened Common
  import opened Jwt
  import opened PostModel
  import opened CommentModel
  import opened UserModel
  import opened Cache
  import opened Store
  import opened Http
  import opened AuthGate
  import UserController
  import PostController
  import AuthController
  import CommentRoutes

  class Backend {
    const cfg: Config
    var users: map<UserId, User>
    var userOrder: seq<UserId>
    var posts: map<PostId, Post>
    var postOrder: seq<PostId>
    var comments: map<CommentId, Comment>
    var commentOrder: seq<CommentId>
    var cache: map<string, Entry>
    var blacklist: set<string>

    /** The whole state as one value. */
    function State(): World
      reads this
    {
      World(users, userOrder, posts, postOrder, comments, commentOrder, cache, blacklist)
    }

    /** The token serialisation behaves as `jsonwebtoken` does, the password hash has
        bcrypt's shape, and the store invariant holds. */
    ghost predicate Valid()
      reads this
    {
      Sound(cfg.codec) && Compact(cfg.codec) && BcryptShape(cfg.hash) && Invariant(cfg, State())
    }

    /** Start with an empty database and cache. */
    constructor (cfg: Config)
      requires Sound(cfg.codec) && Compact(cfg.codec) && BcryptShape(cfg.hash)
      ensures this.cfg == cfg && State() == Empty() && Valid()
    {
      this.cfg := cfg;
      users, userOrder := map[], [];
      posts, postOrder := map[], [];
      comments, commentOrder := map[], [];
      cache, blacklist := map[], {};
    }

    // -------------------------------------------------------------------------
    // middlewares/authMiddleware.js
    // -------------------------------------------------------------------------

    /** `isLoggedIn`: decides on the request and carries the decision out on `ex`; the store
        is only read. */
    method IsLoggedIn(ex: Exchange, header: Option<string>, cookie: Option<string>, now: int)
      modifies ex
      ensures var d := Decide(cfg, State(), header, cookie, now);
        && (d.Reject? ==> ex.sent == old(ex.sent) + [(d.status, d.message)] && ex.nextCalls == old(ex.nextCalls) && ex.user == old(ex.user))
        && (d.Proceed? ==> ex.sent == old(ex.sent) && ex.nextCalls == old(ex.nextCalls) + 1 && ex.user == Some(d.user))
        && (d.Refreshed? ==>
              ex.sent == old(ex.sent) && ex.nextCalls == old(ex.nextCalls) + 1 &&
              ex.user == Some(d.user) && ex.authorization == Some(d.authorization))
      ensures |ex.sent| + ex.nextCalls == old(|ex.sent|) + old(ex.nextCalls) + 1
    {
      var d := Decide(cfg, State(), header, cookie, now);
      ex.Apply(d);
    }

    /** `isLoggedIn` with the refresh cookie checked against JWT_REFRESH_SECRET. */
    method IsLoggedInCorrected(ex: Exchange, header: Option<string>, cookie: Option<string>, now: int)
      modifies ex
      ensures var d := DecideCorrected(cfg, State(), header, cookie, now);
        && (d.Reject? ==> ex.sent == old(ex.sent) + [(d.status, d.message)] && ex.nextCalls == old(ex.nextCalls) && ex.user == old(ex.user))
        && (d.Proceed? ==> ex.sent == old(ex.sent) && ex.nextCalls == old(ex.nextCalls) + 1 && ex.user == Some(d.user))
        && (d.Refreshed? ==>
              ex.sent == old(ex.sent) && ex.nextCalls == old(ex.nextCalls) + 1 &&
              ex.user == Some(d.user) && ex.authorization == Some(d.authorization))
      ensures |ex.sent| + ex.nextCalls == old(|ex.sent|) + old(ex.nextCalls) + 1
    {
      var d := DecideCorrected(cfg, State(), header, cookie, now);
      ex.Apply(d);
    }

    // -------------------------------------------------------------------------
    // controllers/userController.js
    // -------------------------------------------------------------------------

    /** `followUser` as written: the acting id is `req.user.id`. */
    method FollowUser(target: UserId, reqUser: Claims) returns (r: Response)
      requires Valid()
      modifies this
      ensures (State(), r) == UserController.Follow(old(State()), target, reqUser)
      ensures Valid()
    {
      r := FollowUserAs(target, reqUser.id);
    }

    /** `followUser` reading `req.user.userId`, the claim the gate sets. */
    method FollowUserCorrected(target: UserId, reqUser: Claims) returns (r: Response)
      requires Valid()
      modifies this
      ensures (State(), r) == UserController.FollowCorrected(old(State()), target, reqUser)
      ensures Valid()
    {
      r := FollowUserAs(target, reqUser.userId);
    }

    /** The steps of `followUser` for the acting id `me`: the guards, then the toggle. */
    method FollowUserAs(target: UserId, me: Option<UserId>) returns (r: Response)
      requires Valid()
      modifies this
      ensures (State(), r) == UserController.FollowAs(old(State()), target, me)
      ensures Valid()
    {
      UserController.FollowKeeps(cfg, State(), target, me);
      if me == Some(target) {
        return Reply(400, Outcome(false, UserController.CannotFollowSelf));
      }
      if target !in users {
        return Reply(404, Outcome(false, UserController.FollowTargetMissing));
      }
      if me.None? || me.value !in users {
        return Reply(500, Outcome(false, UserController.ServerErrorBang));
      }
      r := FollowToggled(me.value, target);
    }

    /** The toggle on two distinct existing accounts. */
    method FollowToggled(m: UserId, target: UserId) returns (r: Response)
      requires m != target && m in users && target in users
      modifies this
      ensures (State(), r) == UserController.FollowToggled(old(State()), target, m)
    {
      ghost var w0 := State();
      var unfollow := target in users[m].following;
      FollowWrites(m, target);
      ghost var w1 := State();
      cache := Del(Del(cache, UserKey(m)), UserKey(target));
      r := Reply(200, Outcome(true, if unfollow then UserController.Unfollowed else UserController.Followed));
      assert State() == w1.(cache := Del(Del(w1.cache, UserKey(m)), UserKey(target)));
    }

    /** The two `findByIdAndUpdate` calls of the toggle. */
    method FollowWrites(m: UserId, target: UserId)
      requires m != target && m in users && target in users
      modifies this
      ensures State() == UserController.FollowWrites(old(State()), target, m)
    {
      if target in users[m].following {
        users := users[m := users[m].(following := RemoveAll(users[m].following, target))];
        users := users[target := users[target].(followers := RemoveAll(users[target].followers, m))];
      } else {
        users := users[m := users[m].(following := users[m].following + [target])];
        users := users[target := users[target].(followers := users[target].followers + [m])];
      }
    }

    /** `getUserProfile`: read through `user:<id>`. */
    method GetUserProfile(reqUser: Claims) returns (r: Response)
      requires Valid()
      modifies this
      ensures (State(), r) == UserController.GetUserProfile(old(State()), reqUser)
      ensures Valid()
    {
      var key := UserKey(Interpolate(reqUser.userId));
      var cached := Get(cache, key);
      if cached.Some? {
        return Reply(200, Json(cached.value));
      }
      var u := FindUser(State(), reqUser.userId);
      if u.None? {
        return Reply(404, ErrorText("User not found"));
      }
      var snap := ProfileSnap(UserController.ProfileOf(State(), reqUser.userId.value, u.value));
      cache := Set(cache, key, snap, ProfileTtl);
      r := Reply(200, Json(snap));
    }

    /** `getUserPosts`: read through `userPosts:<id>`. */
    method GetUserPosts(userId: UserId) returns (r: Response)
      requires Valid()
      modifies this
      ensures (State(), r) == UserController.GetUserPosts(old(State()), userId)
      ensures Valid()
    {
      var key := UserPostsKey(userId);
      var cached := Get(cache, key);
      if cached.Some? {
        return Reply(200, PostsOf(cached.value));
      }
      var snap := PostsSnap(PostsByOwner(State(), userId));
      cache := Set(cache, key, snap, UserPostsTtl);
      r := Reply(200, PostsOf(snap));
    }

    /** `getAllUser`: read through `allUsers`. */
    method GetAllUser() returns (r: Response)
      requires Valid()
      modifies this
      ensures (State(), r) == UserController.GetAllUser(old(State()))
      ensures Valid()
    {
      var cached := Get(cache, AllUsersKey);
      if cached.Some? {
        return Reply(200, Json(cached.value));
      }
      var snap := UsersSnap(AllUsers(State()));
      cache := Set(cache, AllUsersKey, snap, AllUsersTtl);
      r := Reply(200, Json(snap));
    }

    /** `updateUserProfile`. */
    method UpdateUserProfile(reqUser: Claims, username: Option<string>, bio: Option<string>, file: Option<string>) returns (r: Response)
      requires Valid()
      modifies this
      ensures (State(), r) == UserController.UpdateUserProfile(old(State()), reqUser, username, bio, file)
      ensures Valid()
    {
      UserController.UpdateProfileKeeps(cfg, State(), reqUser, username, bio, file);
      var u := FindUser(State(), reqUser.userId);
      if u.None? {
        return Reply(404, Outcome(false, "User not found"));
      }
      var id := reqUser.userId.value;
      var name := if username.Some? then Trim(username.value) else u.value.username;
      var pic := if file.Some? then file.value else u.value.profilePic;
      if UserController.UsernameTaken(State(), id, name) {
        return Reply(500, Outcome(false, "Internal server error"));
      }
      r := SaveProfile(id, u.value.(username := name, profilePic := pic));
    }

    /** `findByIdAndUpdate` with the updated document, then the cache deletion. */
    method SaveProfile(id: UserId, u: User) returns (r: Response)
      modifies this
      ensures (State(), r) == UserController.ProfileSaved(old(State()), id, u)
    {
      users := users[id := u];
      cache := Del(cache, UserKey(id));
      r := Reply(200, ProfileUpdated(UserDoc(id, u)));
    }

    /** `logoutUser`. */
    method LogoutUser(cookie: Option<string>) returns (r: Response)
      requires Valid()
      modifies this
      ensures (State(), r) == UserController.Logout(old(State()), cookie)
      ensures Valid()
    {
      if !Truthy(cookie) {
        return Reply(401, Message("Unauthorized: No token found"));
      }
      blacklist := blacklist + {cookie.value};
      r := Response(200, Message("Logout successful"), [ClearCookie("refreshToken")]);
    }

    /** `deleteUserAccount`: the post deletion, the existence check, then the removal. */
    method DeleteUserAccount(userId: UserId) returns (r: Response)
      requires Valid()
      modifies this
      ensures (State(), r) == UserController.DeleteUserAccount(cfg, old(State()), userId)
      ensures Valid()
    {
      ghost var w0 := State();
      if cfg.strictQuery {
        DeleteAllPostsKeeps(cfg, w0);
        posts, postOrder := map[], [];
      }
      assert State() == UserController.DeleteManyByUserIdPath(cfg, w0);
      if userId !in users {
        return Reply(404, Message("User not found"));
      }
      r := RemoveAccount(userId);
    }

    /** The account's removal with its `findOneAndDelete` hook, then the two cache
        deletions. */
    method RemoveAccount(userId: UserId) returns (r: Response)
      requires Valid() && userId in users
      modifies this
      ensures (State(), r) == UserController.RemoveAccount(old(State()), userId)
      ensures Valid()
    {
      FindByIdAndDeleteKeeps(cfg, State(), userId);
      FindByIdAndDelete(userId);
      ghost var w2 := State();
      var c := Del(Del(cache, UserKey(userId)), UserPostsKey(userId));
      CacheKeeps(cfg, w2, c);
      cache := c;
      assert State() == w2.(cache := c);
      r := Reply(200, Message("Account deleted successfully"));
    }

    /** `User.findByIdAndDelete(id)` on an existing account: the hook, then the removal. */
    method FindByIdAndDelete(userId: UserId)
      requires userId in users
      modifies this
      ensures State() == Store.FindByIdAndDelete(old(State()), userId)
    {
      DeletePostsOfOwner(userId);
      users, userOrder := users - {userId}, RemoveAll(userOrder, userId);
    }

    /** The pre-hook `Post.deleteMany({ user })`. */
    method DeletePostsOfOwner(owner: UserId)
      modifies this
      ensures State() == DeletePostsOf(old(State()), owner)
    {
      var kept := map id | id in posts && posts[id].user != owner :: posts[id];
      posts, postOrder := kept, Filter(postOrder, id => id in kept);
    }

    // -------------------------------------------------------------------------
    // controllers/postController.js
    // -------------------------------------------------------------------------

    /** `createPost`: validate, save the post, then push its id onto the owner's `posts`. */
    method CreatePost(reqUser: Claims, caption: Option<string>, file: Option<string>, newId: PostId, now: int) returns (r: Response)
      requires Valid()
      modifies this
      ensures (State(), r) == PostController.CreatePost(old(State()), reqUser, caption, file, newId, now)
      ensures Valid()
    {
      PostController.CreateKeeps(cfg, State(), reqUser, caption, file, newId, now);
      if file.None? || !Truthy(caption) {
        return Reply(400, Message("Caption and image are required"));
      }
      if !Truthy(reqUser.userId) {
        return Reply(401, Message("User authentication failed"));
      }
      var p := NewPost(reqUser.userId, file, caption, now);
      if p.None? || newId in posts {
        return Reply(500, Message("Internal Server Error"));
      }
      SavePost(newId, p.value, reqUser.userId.value);
      r := Reply(201, PostJson(PostDoc(newId, p.value)));
    }

    /** `newPost.save()` under a free `_id`, then the `$push` onto the owner's `posts`. */
    method SavePost(newId: PostId, p: Post, owner: UserId)
      requires newId !in posts
      modifies this
      ensures State() == UpdateUser(InsertPost(old(State()), newId, p).value, owner, PushPost(newId))
    {
      posts, postOrder := posts[newId := p], postOrder + [newId];
      if owner in users {
        users := users[owner := users[owner].(posts := users[owner].posts + [newId])];
      }
    }

    /** The steps of `updatePost` with the owner path read and the requester compared. */
    method UpdatePostAs(id: PostId, ownerPath: string, requester: Option<UserId>, patch: PostController.PostPatch, now: int) returns (r: Response)
      requires Valid()
      modifies this
      ensures (State(), r) == PostController.UpdatePostWith(old(State()), id, ownerPath, requester, patch, now)
      ensures Valid()
    {
      PostController.UpdateDeleteKeep(cfg, State(), id, ownerPath, requester, patch, now);
      if id !in posts {
        return Reply(404, Message(PostController.PostNotFound));
      }
      var owner := PostController.OwnerField(posts[id], ownerPath);
      if owner.None? {
        return Reply(500, Message(PostController.ToStringOfUndefined));
      }
      if Some(owner.value) != requester {
        return Reply(403, Message("Unauthorized"));
      }
      posts := posts[id := PostController.Patched(posts[id], patch, now)];
      r := Reply(200, PostJson(PostDoc(id, posts[id])));
    }

    /** The steps of `deletePost` with the owner path read and the requester compared. */
    method DeletePostAs(id: PostId, ownerPath: string, requester: Option<UserId>) returns (r: Response)
      requires Valid()
      modifies this
      ensures (State(), r) == PostController.DeletePostWith(old(State()), id, ownerPath, requester)
      ensures Valid()
    {
      PostController.UpdateDeleteKeep(cfg, State(), id, ownerPath, requester, PostController.NoPatch, 0);
      if id !in posts {
        return Reply(404, Message(PostController.PostNotFound));
      }
      var owner := PostController.OwnerField(posts[id], ownerPath);
      if owner.None? {
        return Reply(500, Message(PostController.ToStringOfUndefined));
      }
      if Some(owner.value) != requester {
        return Reply(403, Message("Unauthorized"));
      }
      posts, postOrder := posts - {id}, RemoveAll(postOrder, id);
      r := Reply(200, Message("Post deleted successfully"));
    }

    /** `updatePost` as written: `post.userId` against `req.user.id`. */
    method UpdatePost(id: PostId, reqUser: Claims, patch: PostController.PostPatch, now: int) returns (r: Response)
      requires Valid()
      modifies this
      ensures (State(), r) == PostController.UpdatePost(old(State()), id, reqUser, patch, now)
      ensures Valid()
    {
      r := UpdatePostAs(id, "userId", reqUser.id, patch, now);
    }

    /** `deletePost` as written: `post.userId` against `req.user.id`. */
    method DeletePost(id: PostId, reqUser: Claims) returns (r: Response)
      requires Valid()
      modifies this
      ensures (State(), r) == PostController.DeletePost(old(State()), id, reqUser)
      ensures Valid()
    {
      r := DeletePostAs(id, "userId", reqUser.id);
    }

    /** `updatePost` comparing the schema's owner path `user` with `req.user.userId`. */
    method UpdatePostCorrected(id: PostId, reqUser: Claims, patch: PostController.PostPatch, now: int) returns (r: Response)
      requires Valid()
      modifies this
      ensures (State(), r) == PostController.UpdatePostCorrected(old(State()), id, reqUser, patch, now)
      ensures Valid()
    {
      r := UpdatePostAs(id, "user", reqUser.userId, patch, now);
    }

    /** `deletePost` comparing the schema's owner path `user` with `req.user.userId`. */
    method DeletePostCorrected(id: PostId, reqUser: Claims) returns (r: Response)
      requires Valid()
      modifies this
      ensures (State(), r) == PostController.DeletePostCorrected(old(State()), id, reqUser)
      ensures Valid()
    {
      r := DeletePostAs(id, "user", reqUser.userId);
    }

    /** `likePost`: load the post and the body's user, toggle in memory, save. */
    method LikePost(postId: PostId, userId: Option<UserId>, now: int) returns (r: Response)
      requires Valid()
      modifies this
      ensures (State(), r) == PostController.LikePost(old(State()), postId, userId, now)
      ensures Valid()
    {
      PostController.LikeKeeps(cfg, State(), postId, userId, now);
      if postId !in posts {
        return Reply(404, Message(PostController.PostNotFound));
      }
      if FindUser(State(), userId).None? {
        return Reply(404, Message("User not found"));
      }
      r := SaveLike(postId, userId.value, now);
    }

    /** Toggle `u` in the loaded post's likes, adjust the counter, and save. */
    method SaveLike(postId: PostId, u: UserId, now: int) returns (r: Response)
      requires postId in posts
      modifies this
      ensures (State(), r) == PostController.Liked(old(State()), postId, u, now)
    {
      ghost var w0 := State();
      var post := posts[postId];
      var hasLiked := u in post.likes;
      if hasLiked {
        post := post.(likes := RemoveAll(post.likes, u));
        post := post.(likeCount := post.likeCount - 1);
      } else {
        post := post.(likes := post.likes + [u]);
        post := post.(likeCount := post.likeCount + 1);
      }
      post := post.(updatedAt := now);
      assert post == PostController.ToggleLike(w0.posts[postId], u, now);
      if !SchemaValid(post) {
        return Reply(500, Message(PostController.LikeFailed));
      }
      posts := posts[postId := post];
      r := Reply(200, LikeToggled(if hasLiked then "Post unliked" else "Post liked", PostDoc(postId, post), PopulateUsers(State(), post.likes)));
    }

    /** `getAllLikes`: only reads. */
    method GetAllLikes(postId: PostId) returns (r: Response)
      ensures r == PostController.GetAllLikes(State(), postId).1
    {
      if postId !in posts {
        return Reply(404, Outcome(false, PostController.PostNotFound));
      }
      var likers := PopulateUsers(State(), posts[postId].likes);
      r := Reply(200, Likes(|likers|, likers));
    }

    // -------------------------------------------------------------------------
    // controllers/authController.js
    // -------------------------------------------------------------------------

    /** `register`: the checks, then `User.create` and the token methods. */
    method Register(errors: seq<string>, username: Option<string>, email: Option<string>, password: Option<string>, newId: UserId, now: int) returns (r: Response)
      requires Valid()
      modifies this
      ensures (State(), r) == AuthController.Register(cfg, old(State()), errors, username, email, password, newId, now)
      ensures Valid()
    {
      if |errors| > 0 {
        return Reply(400, Errors(errors));
      }
      if !Truthy(username) || !Truthy(email) || !Truthy(password) {
        return Reply(400, Message(AuthController.AllFieldsRequired));
      }
      if FindUserByEmail(State(), email.value).Some? {
        return Reply(400, Message(AuthController.UserAlreadyExists));
      }
      var created := NewUser(username.value, email.value, password.value);
      if created.None? {
        return Reply(500, Message(AuthController.ServerError));
      }
      r := CreateAccount(newId, created.value, now);
    }

    /** `User.create` on a new document (the pre-save hook hashes the password), then the
        two token methods on the in-memory document; the refresh token it keeps is not
        saved. */
    method CreateAccount(newId: UserId, u: User, now: int) returns (r: Response)
      requires Valid() && u.refreshToken.None?
      modifies this
      ensures (State(), r) == AuthController.CreateAccount(cfg, old(State()), newId, u, now)
      ensures Valid()
    {
      ghost var w0 := State();
      var doc := new UserDocument.Create(newId, u);
      doc.PreSave(cfg.hash);
      ghost var saved := PreSaved(u, true, cfg.hash);
      assert doc.user == saved;
      if InsertUser(State(), newId, doc.user).None? {
        return Reply(500, Message(AuthController.ServerError));
      }
      InsertUserKeeps(cfg, w0, newId, saved);
      users, userOrder := users[newId := doc.user], userOrder + [newId];
      assert State() == InsertUser(w0, newId, saved).value;
      var access := cfg.codec.encode(doc.GenerateAccessToken(cfg.env, now));
      var refresh := doc.GenerateRefreshToken(cfg.codec, cfg.env, now);
      assert doc.user.username == saved.username && doc.user.email == saved.email;
      r := Response(201, Registered(newId, doc.user.username, doc.user.email, access), [SetCookie("refreshToken", refresh)]);
    }

    /** `login`: look up, compare, then issue the code. `rnd` is what `Math.random()`
        returned. */
    method Login(errors: seq<string>, email: Option<string>, password: Option<string>, rnd: real, now: int) returns (r: Response)
      requires Valid() && 0.0 <= rnd < 1.0
      modifies this
      ensures (State(), r) == AuthController.Login(cfg, old(State()), errors, email, password, rnd, now)
      ensures Valid()
    {
      if |errors| > 0 {
        return Reply(400, Errors(errors));
      }
      var found := AuthController.FindByEmailField(State(), email);
      if found.None? {
        return Reply(400, Message(AuthController.InvalidCredentials));
      }
      var id := found.value;
      if password.None? {
        return Reply(500, Message(AuthController.ServerError));
      }
      if !Compare(cfg, password.value, users[id].password) {
        return Reply(400, Message(AuthController.InvalidCredentials));
      }
      r := IssueCode(id, rnd, now);
    }

    /** Sign both tokens, then set the new code on the loaded document and save it. */
    method IssueCode(id: UserId, rnd: real, now: int) returns (r: Response)
      requires Valid() && id in users && 0.0 <= rnd < 1.0
      modifies this
      ensures (State(), r) == AuthController.LoginSucceeded(cfg, old(State()), id, rnd, now)
      ensures Valid()
    {
      ghost var w0 := State();
      var access := cfg.codec.encode(AuthController.LoginAccessToken(id, now));
      var refresh := cfg.codec.encode(AuthController.LoginRefreshToken(id, now));
      var doc := new UserDocument.Load(id, users[id]);
      doc.user := doc.user.(otp := Some(NatToString(AuthController.OtpCode(rnd))));
      if !UserSchemaValid(doc.user) {
        return Response(500, Message(AuthController.ServerError), [SetCookie("refreshToken", refresh)]);
      }
      doc.PreSave(cfg.hash);
      SetUserKeeps(cfg, w0, id, doc.user);
      users := users[id := doc.user];
      r := Response(200, LoggedIn(access, UserDoc(id, doc.user)), [SetCookie("refreshToken", refresh)]);
    }

    /** `verifyOTP`: look up, compare the code, sign both tokens, then store. */
    method VerifyOtp(email: Option<string>, otp: Option<string>, now: int) returns (r: Response)
      requires Valid()
      modifies this
      ensures (State(), r) == AuthController.VerifyOtp(cfg, old(State()), email, otp, now)
      ensures Valid()
    {
      var found := AuthController.FindByEmailField(State(), email);
      if found.None? {
        return Reply(400, Message("User not found"));
      }
      var id := found.value;
      if !Truthy(users[id].otp) || users[id].otp != otp {
        return Reply(400, Message(AuthController.InvalidOtp));
      }
      var accessToken := UtilAccessToken(cfg.env, id, now);
      if accessToken.None? {
        return Reply(500, Message(AuthController.ServerError));
      }
      var refreshToken := UtilRefreshToken(cfg.env, id, now);
      if refreshToken.None? {
        return Reply(500, Message(AuthController.ServerError));
      }
      r := StoreRefreshToken(id, accessToken.value, refreshToken.value);
    }

    /** Store the refresh token and clear the code on the loaded document, save it, and set
        the access-token cookie. */
    method StoreRefreshToken(id: UserId, accessToken: Token, refreshToken: Token) returns (r: Response)
      requires Valid() && id in users && refreshToken.secret == RefreshSecret
      modifies this
      ensures (State(), r) == AuthController.OtpVerified(cfg, old(State()), id, accessToken, refreshToken)
      ensures Valid()
    {
      ghost var w0 := State();
      var access := cfg.codec.encode(accessToken);
      var doc := new UserDocument.Load(id, users[id]);
      doc.user := doc.user.(refreshToken := Some(cfg.codec.encode(refreshToken)));
      doc.user := doc.user.(otp := None);
      if !UserSchemaValid(doc.user) {
        return Reply(500, Message(AuthController.ServerError));
      }
      doc.PreSave(cfg.hash);
      assert cfg.codec.decode(cfg.codec.encode(refreshToken)) == Some(refreshToken);
      SetUserKeeps(cfg, w0, id, doc.user);
      users := users[id := doc.user];
      r := Response(200, OtpAccepted(access), [SetCookie("accesstoken", access)]);
    }

    // -------------------------------------------------------------------------
    // routes/commentRoutes.js
    // -------------------------------------------------------------------------

    /** The steps of the add handler for the author `actor`. */
    method AddCommentAs(postId: Option<PostId>, text: Option<string>, actor: Option<UserId>, newId: CommentId, now: int) returns (r: Response)
      requires Valid()
      modifies this
      ensures (State(), r) == CommentRoutes.AddCommentAs(old(State()), postId, text, actor, newId, now)
      ensures Valid()
    {
      CommentRoutes.AddKeeps(cfg, State(), postId, text, actor, newId, now);
      if text.None? {
        return Reply(500, Message(CommentRoutes.ServerError));
      }
      if Trim(text.value) == "" {
        return Reply(400, Message(CommentRoutes.CommentEmpty));
      }
      var c := NewComment(postId, actor, text, now);
      if c.None? || newId in comments {
        return Reply(500, Message(CommentRoutes.ServerError));
      }
      comments, commentOrder := comments[newId := c.value], commentOrder + [newId];
      r := Reply(201, CommentJson(CommentDoc(newId, c.value)));
    }

    /** The add handler as written: the author is `req.user.id`. */
    method AddComment(postId: Option<PostId>, text: Option<string>, reqUser: Claims, newId: CommentId, now: int) returns (r: Response)
      requires Valid()
      modifies this
      ensures (State(), r) == CommentRoutes.AddComment(old(State()), postId, text, reqUser, newId, now)
      ensures Valid()
    {
      r := AddCommentAs(postId, text, reqUser.id, newId, now);
    }

    /** The add handler taking the author from `req.user.userId`. */
    method AddCommentCorrected(postId: Option<PostId>, text: Option<string>, reqUser: Claims, newId: CommentId, now: int) returns (r: Response)
      requires Valid()
      modifies this
      ensures (State(), r) == CommentRoutes.AddCommentCorrected(old(State()), postId, text, reqUser, newId, now)
      ensures Valid()
    {
      r := AddCommentAs(postId, text, reqUser.userId, newId, now);
    }

    /** The fetch handler: only reads. */
    method FetchComments(postId: PostId) returns (r: Response)
      ensures r == CommentRoutes.FetchComments(State(), postId).1
    {
      r := Reply(200, CommentList(CommentsOfPost(State(), postId)));
    }

    /** The steps of the delete handler for the requester `actor`. */
    method DeleteCommentAs(commentId: CommentId, actor: Option<UserId>) returns (r: Response)
      requires Valid()
      modifies this
      ensures (State(), r) == CommentRoutes.DeleteCommentAs(old(State()), commentId, actor)
      ensures Valid()
    {
      CommentRoutes.DeleteKeeps(cfg, State(), commentId, actor);
      if commentId !in comments {
        return Reply(404, Message(CommentRoutes.CommentNotFound));
      }
      if Some(comments[commentId].userId) != actor {
        return Reply(403, Message("Unauthorized"));
      }
      comments, commentOrder := comments - {commentId}, RemoveAll(commentOrder, commentId);
      r := Reply(200, Message("Comment deleted."));
    }

    /** The delete handler as written: the requester is `req.user.id`. */
    method DeleteComment(commentId: CommentId, reqUser: Claims) returns (r: Response)
      requires Valid()
      modifies this
      ensures (State(), r) == CommentRoutes.DeleteComment(old(State()), commentId, reqUser)
      ensures Valid()
    {
      r := DeleteCommentAs(commentId, reqUser.id);
    }

    /** The delete handler comparing with `req.user.userId`. */
    method DeleteCommentCorrected(commentId: CommentId, reqUser: Claims) returns (r: Response)
      requires Valid()
      modifies this
      ensures (State(), r) == CommentRoutes.DeleteCommentCorrected(old(State()), commentId, reqUser)
      ensures Valid()
    {
      r := DeleteCommentAs(commentId, reqUser.userId);
    }

    /** The like handler for the requester `actor`: load, toggle in memory, save. */
    method LikeCommentAs(commentId: CommentId, actor: Option<UserId>, now: int) returns (r: Response)
      requires Valid()
      modifies this
      ensures (State(), r) == CommentRoutes.LikeCommentAs(old(State()), commentId, actor, now)
      ensures Valid()
    {
      CommentRoutes.LikeCommentKeeps(cfg, State(), commentId, actor, now);
      if commentId !in comments {
        return Reply(404, Message(CommentRoutes.CommentNotFound));
      }
      var comment := comments[commentId];
      if actor in comment.likes {
        if None in comment.likes {
          return Reply(500, Message(CommentRoutes.ServerError));
        }
        comment := comment.(likes := RemoveAll(comment.likes, actor));
      } else {
        comment := comment.(likes := comment.likes + [actor]);
      }
      comment := comment.(updatedAt := now);
      comments := comments[commentId := comment];
      r := Reply(200, CommentJson(CommentDoc(commentId, comment)));
    }

    /** The like handler as written: the requester is `req.user.id`. */
    method LikeComment(commentId: CommentId, reqUser: Claims, now: int) returns (r: Response)
      requires Valid()
      modifies this
      ensures (State(), r) == CommentRoutes.LikeComment(old(State()), commentId, reqUser, now)
      ensures Valid()
    {
      r := LikeCommentAs(commentId, reqUser.id, now);
    }

    /** The like handler taking the requester from `req.user.userId`. */
    method LikeCommentCorrected(commentId: CommentId, reqUser: Claims, now: int) returns (r: Response)
      requires Valid()
      modifies this
      ensures (State(), r) == CommentRoutes.LikeCommentCorrected(old(State()), commentId, reqUser, now)
      ensures Valid()
    {
      r := LikeCommentAs(commentId, reqUser.userId, now);
    }
  }
}
