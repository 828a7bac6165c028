/** routes/commentRoutes.js: adding a comment under a post, listing a post's comments,
    deleting one's own comment, and the comment like toggle. The socket broadcasts after
    each write are left out. */
module CommentRoutes {
  import opened Common
  import opened Jwt
  import opened CommentModel
  import opened Store
  import opened Http

  const CommentEmpty := "Comment cannot be empty."
  const CommentNotFound := "Comment not found."
  const ServerError := "Server error."

  // ---------------------------------------------------------------------------
  // POST /add
  // ---------------------------------------------------------------------------

  /** The add handler for the author `actor`. `text.trim()` on a missing text throws (500);
      a text that is blank after trimming is 400. The comment is then validated and saved
      under `newId` (a missing reference, or a taken `_id`, lands in the catch: 500). The text
      is stored untrimmed. */
  function AddCommentAs(w: World, postId: Option<PostId>, text: Option<string>, actor: Option<UserId>, newId: CommentId, now: int): (World, Response) {
    if text.None? then (w, Reply(500, Message(ServerError)))
    else if Trim(text.value) == "" then (w, Reply(400, Message(CommentEmpty)))
    else
      match NewComment(postId, actor, text, now)
      case None => (w, Reply(500, Message(ServerError)))
      case Some(c) =>
        match InsertComment(w, newId, c)
        case None => (w, Reply(500, Message(ServerError)))
        case Some(w') => (w', Reply(201, CommentJson(CommentDoc(newId, c))))
  }

  /** The add handler as written: the author is `req.user.id`. */
  function AddComment(w: World, postId: Option<PostId>, text: Option<string>, reqUser: Claims, newId: CommentId, now: int): (World, Response) {
    AddCommentAs(w, postId, text, reqUser.id, newId, now)
  }

  /** The add handler taking the author from `req.user.userId`, the claim the gate sets. */
  function AddCommentCorrected(w: World, postId: Option<PostId>, text: Option<string>, reqUser: Claims, newId: CommentId, now: int): (World, Response) {
    AddCommentAs(w, postId, text, reqUser.userId, newId, now)
  }

  /** A missing text is 500 and a blank one 400; neither saves anything. */
  lemma AddRejects(w: World, postId: Option<PostId>, text: Option<string>, actor: Option<UserId>, newId: CommentId, now: int)
    ensures text.None? ==> AddCommentAs(w, postId, text, actor, newId, now) == (w, Reply(500, Message(ServerError)))
    ensures text.Some? && (forall i :: 0 <= i < |text.value| ==> IsJsSpace(text.value[i])) ==>
      AddCommentAs(w, postId, text, actor, newId, now) == (w, Reply(400, Message(CommentEmpty)))
    ensures AddCommentAs(w, postId, text, actor, newId, now).1.status != 201 ==> AddCommentAs(w, postId, text, actor, newId, now).0 == w
  {
    if text.Some? {
      TrimEmpty(text.value);
    }
  }

  /** A non-blank comment by a known author under a given post is saved exactly when its
      `_id` is free: it references that post and author, keeps the text as sent, has no
      likes, and is answered with 201. */
  lemma AddStores(w: World, postId: PostId, text: string, author: UserId, newId: CommentId, now: int)
    requires Trim(text) != ""
    ensures var (w', r) := AddCommentAs(w, Some(postId), Some(text), Some(author), newId, now);
      var c := Comment(postId, author, text, [], now, now);
      && (r.status == 201 <==> newId !in w.comments)
      && (r.status == 201 ==>
            w' == w.(comments := w.comments[newId := c], commentOrder := w.commentOrder + [newId]) &&
            r.body == CommentJson(CommentDoc(newId, c)))
  {
    assert text != "";
  }

  /** As written, no comment can be added: the gate never sets `req.user.id`, so the
      author is missing and validation fails (500) for every non-blank text. */
  lemma AddAsWritten(w: World, postId: Option<PostId>, text: string, reqUser: Claims, newId: CommentId, now: int)
    requires reqUser.id.None? && Trim(text) != ""
    ensures AddComment(w, postId, Some(text), reqUser, newId, now) == (w, Reply(500, Message(ServerError)))
  {
  }

  /** Taking the author from `userId`, an authenticated requester's non-blank comment under
      a post is saved under a free `_id`, with the requester as author. */
  lemma AddCorrectedStores(w: World, postId: PostId, text: string, reqUser: Claims, newId: CommentId, now: int)
    requires reqUser.userId.Some? && Trim(text) != "" && newId !in w.comments
    ensures var (w', r) := AddCommentCorrected(w, Some(postId), Some(text), reqUser, newId, now);
      && r.status == 201
      && w'.comments == w.comments[newId := Comment(postId, reqUser.userId.value, text, [], now, now)]
  {
    AddStores(w, postId, text, reqUser.userId.value, newId, now);
  }

  lemma AddKeeps(cfg: Config, w: World, postId: Option<PostId>, text: Option<string>, actor: Option<UserId>, newId: CommentId, now: int)
    requires Invariant(cfg, w)
    ensures Invariant(cfg, AddCommentAs(w, postId, text, actor, newId, now).0)
  {
    if text.Some? && Trim(text.value) != "" {
      var c := NewComment(postId, actor, text, now);
      if c.Some? && InsertComment(w, newId, c.value).Some? {
        InsertCommentKeeps(cfg, w, newId, c.value);
      }
    }
  }

  // ---------------------------------------------------------------------------
  // GET /:postId
  // ---------------------------------------------------------------------------

  /** The fetch handler: `Comment.find({ postId }).sort({ createdAt: -1 })`. */
  function FetchComments(w: World, postId: PostId): (World, Response) {
    (w, Reply(200, CommentList(CommentsOfPost(w, postId))))
  }

  /** The listing holds exactly the stored comments of the post, each once, newest first,
      and reading it changes nothing. */
  lemma FetchListing(cfg: Config, w: World, postId: PostId)
    requires Invariant(cfg, w)
    ensures FetchComments(w, postId).0 == w && FetchComments(w, postId).1.status == 200
    ensures var list := FetchComments(w, postId).1.body.comments;
      && (forall d :: d in list <==> d.id in w.comments && d.comment == w.comments[d.id] && d.comment.postId == postId)
      && SortedDesc(list, CommentStamp)
      && (forall i, j :: 0 <= i < j < |list| ==> list[i].id != list[j].id)
  {
    CommentsOfPostDistinct(w, postId);
  }

  // ---------------------------------------------------------------------------
  // DELETE /:commentId
  // ---------------------------------------------------------------------------

  /** The delete handler for the requester `actor`: 404 for a missing comment, 403 unless
      the stored author's id equals `actor`, then the comment is removed. */
  function DeleteCommentAs(w: World, commentId: CommentId, actor: Option<UserId>): (World, Response) {
    if commentId !in w.comments then (w, Reply(404, Message(CommentNotFound)))
    else if Some(w.comments[commentId].userId) != actor then (w, Reply(403, Message("Unauthorized")))
    else (RemoveComment(w, commentId), Reply(200, Message("Comment deleted.")))
  }

  /** The delete handler as written: the requester is `req.user.id`. */
  function DeleteComment(w: World, commentId: CommentId, reqUser: Claims): (World, Response) {
    DeleteCommentAs(w, commentId, reqUser.id)
  }

  /** The delete handler comparing with `req.user.userId`. */
  function DeleteCommentCorrected(w: World, commentId: CommentId, reqUser: Claims): (World, Response) {
    DeleteCommentAs(w, commentId, reqUser.userId)
  }

  /** 404 for a missing comment and 403 for someone else's, both without a write; only the
      author removes the comment, and nothing else changes. */
  lemma DeleteGuards(w: World, commentId: CommentId, actor: Option<UserId>)
    ensures commentId !in w.comments ==> DeleteCommentAs(w, commentId, actor) == (w, Reply(404, Message(CommentNotFound)))
    ensures commentId in w.comments && actor != Some(w.comments[commentId].userId) ==>
      DeleteCommentAs(w, commentId, actor) == (w, Reply(403, Message("Unauthorized")))
    ensures commentId in w.comments && actor == Some(w.comments[commentId].userId) ==>
      var w' := DeleteCommentAs(w, commentId, actor).0;
      && w'.comments == w.comments - {commentId} && w'.commentOrder == RemoveAll(w.commentOrder, commentId)
      && w'.users == w.users && w'.posts == w.posts && w'.cache == w.cache
      && DeleteCommentAs(w, commentId, actor).1 == Reply(200, Message("Comment deleted."))
  {
  }

  /** As written, every existing comment is refused with 403, its author included. */
  lemma DeleteAsWritten(w: World, commentId: CommentId, reqUser: Claims)
    requires reqUser.id.None? && commentId in w.comments
    ensures DeleteComment(w, commentId, reqUser) == (w, Reply(403, Message("Unauthorized")))
  {
  }

  /** With the corrected comparison the author of a comment can delete it. */
  lemma DeleteCorrectedByAuthor(w: World, commentId: CommentId, reqUser: Claims)
    requires commentId in w.comments && reqUser.userId == Some(w.comments[commentId].userId)
    ensures DeleteCommentCorrected(w, commentId, reqUser) == (RemoveComment(w, commentId), Reply(200, Message("Comment deleted.")))
  {
  }

  lemma DeleteKeeps(cfg: Config, w: World, commentId: CommentId, actor: Option<UserId>)
    requires Invariant(cfg, w)
    ensures Invariant(cfg, DeleteCommentAs(w, commentId, actor).0)
  {
    RemoveCommentKeeps(cfg, w, commentId);
  }

  // ---------------------------------------------------------------------------
  // PATCH /:commentId/like
  // ---------------------------------------------------------------------------

  /** The like toggle on a loaded comment, for the requester `actor` (`None` when it is
      `undefined`). `likes.includes(userId)` compares loosely, so `undefined` finds a `null`
      entry and an id finds its own entries. When found, the `filter` calls `toString` on
      every entry and throws on a `null` one (`None`); otherwise it drops every occurrence of
      `actor`. When not found, `actor` is appended. `save()` bumps `updatedAt`. */
  function ToggleCommentLike(c: Comment, actor: Option<UserId>, now: int): Option<Comment> {
    if actor in c.likes then
      if None in c.likes then None
      else Some(c.(likes := RemoveAll(c.likes, actor), updatedAt := now))
    else Some(c.(likes := c.likes + [actor], updatedAt := now))
  }

  /** The like handler for the requester `actor`; the `TypeError` of the filter lands in
      the catch (500). */
  function LikeCommentAs(w: World, commentId: CommentId, actor: Option<UserId>, now: int): (World, Response) {
    if commentId !in w.comments then (w, Reply(404, Message(CommentNotFound)))
    else
      match ToggleCommentLike(w.comments[commentId], actor, now)
      case None => (w, Reply(500, Message(ServerError)))
      case Some(c') => (w.(comments := w.comments[commentId := c']), Reply(200, CommentJson(CommentDoc(commentId, c'))))
  }

  /** The like handler as written: the requester is `req.user.id`. */
  function LikeComment(w: World, commentId: CommentId, reqUser: Claims, now: int): (World, Response) {
    LikeCommentAs(w, commentId, reqUser.id, now)
  }

  /** The like handler taking the requester from `req.user.userId`. */
  function LikeCommentCorrected(w: World, commentId: CommentId, reqUser: Claims, now: int): (World, Response) {
    LikeCommentAs(w, commentId, reqUser.userId, now)
  }

  /** 404 for a missing comment. Otherwise, when `actor` is found and a `null` entry exists
      the answer is 500 and nothing changes; when found without one, every occurrence of
      `actor` is removed; when not found, `actor` is appended (a `null` entry for an
      undefined requester). Only that comment's `likes` and `updatedAt` change. */
  lemma LikeCommentToggles(w: World, commentId: CommentId, actor: Option<UserId>, now: int)
    ensures commentId !in w.comments ==> LikeCommentAs(w, commentId, actor, now) == (w, Reply(404, Message(CommentNotFound)))
    ensures commentId in w.comments && actor in w.comments[commentId].likes && None in w.comments[commentId].likes ==>
      LikeCommentAs(w, commentId, actor, now) == (w, Reply(500, Message(ServerError)))
    ensures commentId in w.comments && (actor !in w.comments[commentId].likes || None !in w.comments[commentId].likes) ==>
      var (w', r) := LikeCommentAs(w, commentId, actor, now);
      var c := w.comments[commentId];
      && w' == w.(comments := w.comments[commentId := w'.comments[commentId]])
      && w'.comments[commentId] == c.(likes := w'.comments[commentId].likes, updatedAt := now)
      && (actor in c.likes ==> w'.comments[commentId].likes == RemoveAll(c.likes, actor))
      && (actor !in c.likes ==> w'.comments[commentId].likes == c.likes + [actor])
      && r == Reply(200, CommentJson(CommentDoc(commentId, w'.comments[commentId])))
  {
  }

  /** As written, the first like of a comment without a `null` entry stores `null` and
      answers 200, and the next like request on it by the same (undefined) requester is a
      500 that changes nothing: the like can never be taken back. */
  lemma LikeAsWritten(w: World, commentId: CommentId, reqUser: Claims, now1: int, now2: int)
    requires reqUser.id.None? && commentId in w.comments && None !in w.comments[commentId].likes
    ensures var (w1, r1) := LikeComment(w, commentId, reqUser, now1);
      && r1.status == 200 && w1.comments[commentId].likes == w.comments[commentId].likes + [None]
      && LikeComment(w1, commentId, reqUser, now2) == (w1, Reply(500, Message(ServerError)))
  {
  }

  /** Taking the requester from `userId`, two toggles by an authenticated user who had not
      liked a comment without `null` entries both succeed and restore its like list. */
  lemma LikeCommentTwiceRestores(w: World, commentId: CommentId, reqUser: Claims, now1: int, now2: int)
    requires reqUser.userId.Some? && commentId in w.comments
    requires reqUser.userId !in w.comments[commentId].likes && None !in w.comments[commentId].likes
    ensures var (w1, r1) := LikeCommentCorrected(w, commentId, reqUser, now1);
      var (w2, r2) := LikeCommentCorrected(w1, commentId, reqUser, now2);
      && r1.status == 200 && r2.status == 200
      && w2.comments[commentId].likes == w.comments[commentId].likes
  {
    var likes := w.comments[commentId].likes;
    AppendThenRemove(likes, reqUser.userId);
    assert None !in likes + [reqUser.userId];
  }

  lemma LikeCommentKeeps(cfg: Config, w: World, commentId: CommentId, actor: Option<UserId>, now: int)
    requires Invariant(cfg, w)
    ensures Invariant(cfg, LikeCommentAs(w, commentId, actor, now).0)
  {
  }
}
