/** controllers/postController.js: post creation with validation, the owner-checked update
    and delete, the like toggle with its counter, and the populated like listing. */
module PostController {
  import opened Common
  import opened Jwt
  import opened PostModel
  import opened UserModel
  import opened Store
  import opened Http

  const PostNotFound := "Post not found"
  const ToStringOfUndefined := "Cannot read properties of undefined (reading 'toString')"
  const LikeFailed := "Internal server error"

  // ---------------------------------------------------------------------------
  // createPost
  // ---------------------------------------------------------------------------

  /** `createPost`. `file` is the uploaded file's buffer as base64 text (the encoding
      itself is not modelled); `newId` is the `_id` the new document gets. The 400 and 401
      checks come before any write; schema validation (an empty image, a caption over 500
      UTF-16 code units) and a taken `_id` fail the save and land in the catch (500). */
  function CreatePost(w: World, reqUser: Claims, caption: Option<string>, file: Option<string>, newId: PostId, now: int): (World, Response) {
    if file.None? || !Truthy(caption) then (w, Reply(400, Message("Caption and image are required")))
    else if !Truthy(reqUser.userId) then (w, Reply(401, Message("User authentication failed")))
    else
      match NewPost(reqUser.userId, file, caption, now)
      case None => (w, Reply(500, Message("Internal Server Error")))
      case Some(p) =>
        match InsertPost(w, newId, p)
        case None => (w, Reply(500, Message("Internal Server Error")))
        case Some(w1) => (UpdateUser(w1, reqUser.userId.value, PushPost(newId)), Reply(201, PostJson(PostDoc(newId, p))))
  }

  /** A missing file or caption is 400, then a missing `userId` is 401; neither writes. */
  lemma CreateRejects(w: World, reqUser: Claims, caption: Option<string>, file: Option<string>, newId: PostId, now: int)
    ensures file.None? || !Truthy(caption) ==>
      CreatePost(w, reqUser, caption, file, newId, now) == (w, Reply(400, Message("Caption and image are required")))
    ensures file.Some? && Truthy(caption) && !Truthy(reqUser.userId) ==>
      CreatePost(w, reqUser, caption, file, newId, now) == (w, Reply(401, Message("User authentication failed")))
    ensures CreatePost(w, reqUser, caption, file, newId, now).1.status != 201 ==>
      CreatePost(w, reqUser, caption, file, newId, now).0 == w
  {
  }

  /** A successful create stores under `newId` a post owned by the requester with the given
      caption and image, no likes and a zero counter, appends `newId` to the owner's `posts`
      (when that account exists), and answers 201 with the stored post. It happens exactly
      when the image is non-empty, the caption fits, and `newId` is free. The cache is not
      touched, so a cached `userPosts:<owner>` listing goes stale. */
  lemma CreateStores(w: World, reqUser: Claims, caption: Option<string>, file: Option<string>, newId: PostId, now: int)
    requires file.Some? && Truthy(caption) && Truthy(reqUser.userId)
    ensures var (w', r) := CreatePost(w, reqUser, caption, file, newId, now);
      r.status == 201 <==> file.value != "" && Utf16Length(caption.value) <= MaxCaption && newId !in w.posts
    ensures var (w', r) := CreatePost(w, reqUser, caption, file, newId, now);
      var owner := reqUser.userId.value;
      r.status == 201 ==>
        && w'.posts == w.posts[newId := Post(owner, file.value, caption, [], 0, [], now, now)]
        && w'.postOrder == w.postOrder + [newId]
        && w'.users == (if owner in w.users then w.users[owner := w.users[owner].(posts := w.users[owner].posts + [newId])] else w.users)
        && w'.cache == w.cache && w'.comments == w.comments
        && r.body == PostJson(PostDoc(newId, w'.posts[newId]))
  {
  }

  /** The caption limit counts UTF-16 code units: 251 emoji are 502 units, so such a
      caption fails validation and the create is a 500 that writes nothing. */
  lemma CreateCountsCodeUnits(w: World, reqUser: Claims, caption: string, file: Option<string>, newId: PostId, now: int)
    requires file.Some? && Truthy(reqUser.userId)
    requires |caption| == 251 && forall i :: 0 <= i < |caption| ==> (caption[i] as int) >= 0x10000
    ensures CreatePost(w, reqUser, Some(caption), file, newId, now) == (w, Reply(500, Message("Internal Server Error")))
  {
    AstralLength(caption);
  }

  lemma CreateKeeps(cfg: Config, w: World, reqUser: Claims, caption: Option<string>, file: Option<string>, newId: PostId, now: int)
    requires Invariant(cfg, w)
    ensures Invariant(cfg, CreatePost(w, reqUser, caption, file, newId, now).0)
  {
    if file.Some? && Truthy(caption) && Truthy(reqUser.userId) {
      var p := NewPost(reqUser.userId, file, caption, now);
      if p.Some? && InsertPost(w, newId, p.value).Some? {
        InsertPostKeeps(cfg, w, newId, p.value);
        UpdateUserKeeps(cfg, InsertPost(w, newId, p.value).value, reqUser.userId.value, PushPost(newId));
      }
    }
  }

  // ---------------------------------------------------------------------------
  // updatePost / deletePost
  // ---------------------------------------------------------------------------

  /** Reading a path of a post document: only `user` is a schema path among the owner
      paths the handlers use; any other path is `undefined`. */
  function OwnerField(p: Post, path: string): (r: Option<UserId>)
    ensures r.Some? <==> path == "user"
    ensures r.Some? ==> r.value == p.user
  {
    if path == "user" then Some(p.user) else None
  }

  /** The schema paths `req.body` may set, each `None` when the body does not send it.
      Paths outside the schema are dropped by strict mode, and `createdAt` is immutable. */
  datatype PostPatch = PostPatch(
    user: Option<UserId>,
    image: Option<string>,
    caption: Option<string>,
    likes: Option<seq<UserId>>,
    likeCount: Option<int>,
    comments: Option<seq<EmbeddedComment>>)

  /** A body that sets nothing. */
  const NoPatch := PostPatch(None, None, None, None, None, None)

  /** `findByIdAndUpdate(id, body, { new: true })`: every sent path is set, the owner and
      the like bookkeeping included, without running validators; the other paths keep
      their values and `updatedAt` is bumped. */
  function Patched(p: Post, patch: PostPatch, now: int): (r: Post)
    ensures r.user == patch.user.GetOr(p.user) && r.image == patch.image.GetOr(p.image)
    ensures r.caption == (if patch.caption.Some? then patch.caption else p.caption)
    ensures r.likes == patch.likes.GetOr(p.likes) && r.likeCount == patch.likeCount.GetOr(p.likeCount)
    ensures r.comments == patch.comments.GetOr(p.comments)
    ensures r.createdAt == p.createdAt && r.updatedAt == now
    ensures patch == NoPatch ==> r == p.(updatedAt := now)
  {
    Post(patch.user.GetOr(p.user), patch.image.GetOr(p.image),
         if patch.caption.Some? then patch.caption else p.caption,
         patch.likes.GetOr(p.likes), patch.likeCount.GetOr(p.likeCount),
         patch.comments.GetOr(p.comments), p.createdAt, now)
  }

  /** The shared shape of `updatePost`: 404 for a missing post, then the owner comparison
      `post[ownerPath].toString() !== requester` (which throws, 500, when the path is
      undefined), 403 on a mismatch, and only then the update. */
  function UpdatePostWith(w: World, id: PostId, ownerPath: string, requester: Option<UserId>, patch: PostPatch, now: int): (World, Response) {
    if id !in w.posts then (w, Reply(404, Message(PostNotFound)))
    else
      match OwnerField(w.posts[id], ownerPath)
      case None => (w, Reply(500, Message(ToStringOfUndefined)))
      case Some(owner) =>
        if Some(owner) != requester then (w, Reply(403, Message("Unauthorized")))
        else
          var p' := Patched(w.posts[id], patch, now);
          (w.(posts := w.posts[id := p']), Reply(200, PostJson(PostDoc(id, p'))))
  }

  /** The shared shape of `deletePost`. */
  function DeletePostWith(w: World, id: PostId, ownerPath: string, requester: Option<UserId>): (World, Response) {
    if id !in w.posts then (w, Reply(404, Message(PostNotFound)))
    else
      match OwnerField(w.posts[id], ownerPath)
      case None => (w, Reply(500, Message(ToStringOfUndefined)))
      case Some(owner) =>
        if Some(owner) != requester then (w, Reply(403, Message("Unauthorized")))
        else (RemovePost(w, id), Reply(200, Message("Post deleted successfully")))
  }

  /** `updatePost` as written: it reads `post.userId` and `req.user.id`. */
  function UpdatePost(w: World, id: PostId, reqUser: Claims, patch: PostPatch, now: int): (World, Response) {
    UpdatePostWith(w, id, "userId", reqUser.id, patch, now)
  }

  /** `deletePost` as written: it reads `post.userId` and `req.user.id`. */
  function DeletePost(w: World, id: PostId, reqUser: Claims): (World, Response) {
    DeletePostWith(w, id, "userId", reqUser.id)
  }

  /** `updatePost` comparing the schema's owner path `user` with `req.user.userId`. */
  function UpdatePostCorrected(w: World, id: PostId, reqUser: Claims, patch: PostPatch, now: int): (World, Response) {
    UpdatePostWith(w, id, "user", reqUser.userId, patch, now)
  }

  /** `deletePost` comparing the schema's owner path `user` with `req.user.userId`. */
  function DeletePostCorrected(w: World, id: PostId, reqUser: Claims): (World, Response) {
    DeletePostWith(w, id, "user", reqUser.userId)
  }

  /** As written, no existing post can ever be updated or deleted: `post.userId` is
      undefined, so the owner comparison throws and every request for an existing post
      is a 500 that changes nothing. */
  lemma UpdateDeleteAsWritten(w: World, id: PostId, reqUser: Claims, patch: PostPatch, now: int)
    requires id in w.posts
    ensures UpdatePost(w, id, reqUser, patch, now) == (w, Reply(500, Message(ToStringOfUndefined)))
    ensures DeletePost(w, id, reqUser) == (w, Reply(500, Message(ToStringOfUndefined)))
  {
  }

  /** The corrected handlers: 404 for a missing post, 403 when the stored owner is not the
      requester, and only otherwise the post is patched (nothing else changes) or removed
      (nothing else changes; the owner's `posts` list keeps the dangling id). */
  lemma UpdateDeleteCorrected(w: World, id: PostId, reqUser: Claims, patch: PostPatch, now: int)
    ensures id !in w.posts ==>
      UpdatePostCorrected(w, id, reqUser, patch, now) == (w, Reply(404, Message(PostNotFound))) &&
      DeletePostCorrected(w, id, reqUser) == (w, Reply(404, Message(PostNotFound)))
    ensures id in w.posts && reqUser.userId != Some(w.posts[id].user) ==>
      UpdatePostCorrected(w, id, reqUser, patch, now) == (w, Reply(403, Message("Unauthorized"))) &&
      DeletePostCorrected(w, id, reqUser) == (w, Reply(403, Message("Unauthorized")))
    ensures id in w.posts && reqUser.userId == Some(w.posts[id].user) ==>
      && UpdatePostCorrected(w, id, reqUser, patch, now).0 == w.(posts := w.posts[id := Patched(w.posts[id], patch, now)])
      && UpdatePostCorrected(w, id, reqUser, patch, now).1 == Reply(200, PostJson(PostDoc(id, Patched(w.posts[id], patch, now))))
      && DeletePostCorrected(w, id, reqUser).0 == RemovePost(w, id)
      && DeletePostCorrected(w, id, reqUser).1 == Reply(200, Message("Post deleted successfully"))
  {
  }

  /** Since the whole body is applied, an owner who sends `user` hands the post over: from
      then on the previous owner is refused with 403 and the new owner may delete it. */
  lemma UpdateHandsOver(w: World, id: PostId, reqUser: Claims, patch: PostPatch, other: Claims, now: int)
    requires id in w.posts && reqUser.userId == Some(w.posts[id].user)
    requires patch.user.Some? && patch.user != reqUser.userId && other.userId == patch.user
    ensures var w' := UpdatePostCorrected(w, id, reqUser, patch, now).0;
      && w'.posts[id].user == patch.user.value
      && DeletePostCorrected(w', id, reqUser) == (w', Reply(403, Message("Unauthorized")))
      && DeletePostCorrected(w', id, other).1 == Reply(200, Message("Post deleted successfully"))
  {
    UpdateDeleteCorrected(w, id, reqUser, patch, now);
    var w' := UpdatePostCorrected(w, id, reqUser, patch, now).0;
    UpdateDeleteCorrected(w', id, reqUser, patch, now);
    UpdateDeleteCorrected(w', id, other, patch, now);
  }

  lemma UpdateDeleteKeep(cfg: Config, w: World, id: PostId, ownerPath: string, requester: Option<UserId>, patch: PostPatch, now: int)
    requires Invariant(cfg, w)
    ensures Invariant(cfg, UpdatePostWith(w, id, ownerPath, requester, patch, now).0)
    ensures Invariant(cfg, DeletePostWith(w, id, ownerPath, requester).0)
  {
    RemovePostKeeps(cfg, w, id);
  }

  // ---------------------------------------------------------------------------
  // likePost / getAllLikes
  // ---------------------------------------------------------------------------

  /** The in-memory toggle on the loaded post: remove every occurrence and decrement, or
      append and increment; `save()` bumps `updatedAt`. */
  function ToggleLike(p: Post, u: UserId, now: int): Post {
    if u in p.likes then p.(likes := RemoveAll(p.likes, u), likeCount := p.likeCount - 1, updatedAt := now)
    else p.(likes := p.likes + [u], likeCount := p.likeCount + 1, updatedAt := now)
  }

  /** `likePost` for the post `postId` and the body's `userId`. The answer carries the
      saved post with its likes populated. */
  function LikePost(w: World, postId: PostId, userId: Option<UserId>, now: int): (World, Response) {
    if postId !in w.posts then (w, Reply(404, Message(PostNotFound)))
    else if FindUser(w, userId).None? then (w, Reply(404, Message("User not found")))
    else Liked(w, postId, userId.value, now)
  }

  /** The toggle on the loaded post, its `save()`, and the populated answer. `save()`
      validates the whole document, so a stored post that no longer passes the schema
      (an update can store an empty image) makes it throw: 500, nothing written. */
  function Liked(w: World, postId: PostId, u: UserId, now: int): (World, Response)
    requires postId in w.posts
  {
    var hasLiked := u in w.posts[postId].likes;
    var p' := ToggleLike(w.posts[postId], u, now);
    if !SchemaValid(p') then (w, Reply(500, Message(LikeFailed)))
    else
      var w' := w.(posts := w.posts[postId := p']);
      (w', Reply(200, LikeToggled(if hasLiked then "Post unliked" else "Post liked", PostDoc(postId, p'), PopulateUsers(w', p'.likes))))
  }

  /** A missing post or a missing account is 404 and nothing changes. */
  lemma LikeMissing(w: World, postId: PostId, userId: Option<UserId>, now: int)
    ensures postId !in w.posts ==> LikePost(w, postId, userId, now) == (w, Reply(404, Message(PostNotFound)))
    ensures postId in w.posts && FindUser(w, userId).None? ==> LikePost(w, postId, userId, now) == (w, Reply(404, Message("User not found")))
  {
  }

  /** With both present, the save fails (500, no write) exactly when the stored post does
      not pass the schema. Otherwise only that post changes: liking appends the user and adds
      one to `likeCount` ("Post liked"); unliking removes every occurrence and subtracts one
      ("Post unliked"). */
  lemma LikeToggles(w: World, postId: PostId, u: UserId, now: int)
    requires postId in w.posts && u in w.users
    ensures !SchemaValid(w.posts[postId]) ==>
      LikePost(w, postId, Some(u), now) == (w, Reply(500, Message(LikeFailed)))
    ensures SchemaValid(w.posts[postId]) ==>
      var (w', r) := LikePost(w, postId, Some(u), now);
      var p := w.posts[postId];
      && w' == w.(posts := w.posts[postId := w'.posts[postId]])
      && r.status == 200 && r.body.LikeToggled? && r.body.post == PostDoc(postId, w'.posts[postId])
      && (u !in p.likes ==>
            && w'.posts[postId].likes == p.likes + [u] && w'.posts[postId].likeCount == p.likeCount + 1
            && r.body.message == "Post liked")
      && (u in p.likes ==>
            && w'.posts[postId].likes == RemoveAll(p.likes, u) && w'.posts[postId].likeCount == p.likeCount - 1
            && r.body.message == "Post unliked")
      && w'.posts[postId] == p.(likes := w'.posts[postId].likes, likeCount := w'.posts[postId].likeCount, updatedAt := now)
  {
  }

  /** The toggle keeps `likeCount == |likes|` with each liker once: removing a liker who
      occurs once removes exactly one element. Without that assumption the counter can
      drift, since unliking removes every occurrence but subtracts one. */
  lemma {:induction false} ToggleKeepsConsistent(p: Post, u: UserId, now: int)
    requires LikeConsistent(p)
    ensures LikeConsistent(ToggleLike(p, u, now))
  {
    if u in p.likes {
      RemoveAllDistinct(p.likes, u);
    } else {
      AppendDistinct(p.likes, u);
    }
  }

  /** The counter drifts on a post whose like list holds a user twice. */
  lemma ToggleDriftsOnDuplicates(p: Post, u: UserId, now: int)
    requires p.likes == [u, u] && p.likeCount == 2
    ensures ToggleLike(p, u, now).likes == [] && ToggleLike(p, u, now).likeCount == 1
  {
    assert RemoveAll([u, u], u) == [] by {
      assert [u, u][1..] == [u];
    }
  }

  /** Like followed by unlike, from "not liked", restores `likes` and `likeCount`. */
  lemma LikeTwiceRestores(w: World, postId: PostId, u: UserId, now1: int, now2: int)
    requires postId in w.posts && u in w.users && u !in w.posts[postId].likes
    ensures var w1 := LikePost(w, postId, Some(u), now1).0;
      var w2 := LikePost(w1, postId, Some(u), now2).0;
      && w2.posts[postId].likes == w.posts[postId].likes
      && w2.posts[postId].likeCount == w.posts[postId].likeCount
      && (SchemaValid(w.posts[postId]) ==> LikePost(w1, postId, Some(u), now2).1.body.message == "Post unliked")
  {
    AppendThenRemove(w.posts[postId].likes, u);
  }

  lemma LikeKeeps(cfg: Config, w: World, postId: PostId, userId: Option<UserId>, now: int)
    requires Invariant(cfg, w)
    ensures Invariant(cfg, LikePost(w, postId, userId, now).0)
  {
  }

  /** `getAllLikes`: the post's likes populated with `username profilePic`. */
  function GetAllLikes(w: World, postId: PostId): (World, Response) {
    if postId !in w.posts then (w, Reply(404, Outcome(false, PostNotFound)))
    else
      var likers := PopulateUsers(w, w.posts[postId].likes);
      (w, Reply(200, Likes(|likers|, likers)))
  }

  /** A missing post is 404. `likesCount` is taken after `populate`: it counts the likers
      whose account still exists, which is the length of `likes` when all of them do. */
  lemma LikesCount(w: World, postId: PostId)
    ensures GetAllLikes(w, postId).0 == w
    ensures postId !in w.posts ==> GetAllLikes(w, postId).1 == Reply(404, Outcome(false, PostNotFound))
    ensures postId in w.posts ==>
      && GetAllLikes(w, postId).1.status == 200
      && GetAllLikes(w, postId).1.body.likesCount == |Present(w.posts[postId].likes, w.users)|
      && ((forall x :: x in w.posts[postId].likes ==> x in w.users) ==>
            GetAllLikes(w, postId).1.body.likesCount == |w.posts[postId].likes|)
  {
    if postId in w.posts && forall x :: x in w.posts[postId].likes ==> x in w.users {
      FilterAll(w.posts[postId].likes, x => x in w.users);
    }
  }
}
