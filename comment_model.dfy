/** The Comment collection's document shape (models/comment.model.js). */
module CommentModel {
  import opened Common

  /** A stored comment: the post and author it references, its text, the users who liked
      it, and the `timestamps` pair. A `likes` entry is `None` where `undefined` was pushed:
      the array stores it as `null`, which no validator of the path rejects. */
  datatype Comment = Comment(
    postId: PostId,
    userId: UserId,
    text: string,
    likes: seq<Option<UserId>>,
    createdAt: int,
    updatedAt: int)

  /** A comment together with its `_id`. */
  datatype CommentDoc = CommentDoc(id: CommentId, comment: Comment)

  /** `new Comment({ postId, userId, text })` validated at `save()` time `now`: `None` is
      the ValidationError for a missing reference or a missing or empty text. The text is
      stored as given (the schema does not trim it) and the like list starts empty. */
  function NewComment(postId: Option<PostId>, userId: Option<UserId>, text: Option<string>, now: int): (r: Option<Comment>)
    ensures r.Some? <==> postId.Some? && userId.Some? && Truthy(text)
    ensures r.Some? ==>
      && r.value.postId == postId.value && r.value.userId == userId.value && r.value.text == text.value
      && r.value.likes == [] && r.value.createdAt == now && r.value.updatedAt == now
  {
    if postId.None? || userId.None? || !Truthy(text) then None
    else Some(Comment(postId.value, userId.value, text.value, [], now, now))
  }
}
