/** The Post collection's document shape and the constraints its schema enforces when a
    new post is validated (models/post.model.js). */
module PostModel {
  import opened Common

  /** `caption: { maxlength: 500 }`. */
  const MaxCaption: nat := 500

  /** An element of the embedded `comments` array. */
  datatype EmbeddedComment = EmbeddedComment(user: Option<UserId>, text: string, createdAt: int)

  /** A stored post. `createdAt`/`updatedAt` come from the schema's `timestamps` option. */
  datatype Post = Post(
    user: UserId,
    image: string,
    caption: Option<string>,
    likes: seq<UserId>,
    likeCount: int,
    comments: seq<EmbeddedComment>,
    createdAt: int,
    updatedAt: int)

  /** A post together with its `_id`, as queries return it. */
  datatype PostDoc = PostDoc(id: PostId, post: Post)

  /** `maxlength` compares the JavaScript length, in UTF-16 code units. */
  predicate CaptionFits(caption: Option<string>) {
    caption.None? || Utf16Length(caption.value) <= MaxCaption
  }

  /** What the schema validators accept for a whole document: an image (a required string,
      so not empty), a caption within 500 UTF-16 code units, and comment texts that are present. */
  predicate SchemaValid(p: Post) {
    p.image != "" && CaptionFits(p.caption) &&
    forall i :: 0 <= i < |p.comments| ==> p.comments[i].text != ""
  }

  /** The like list and its counter agree: each liker once, and `likeCount` is their number. */
  ghost predicate LikeConsistent(p: Post) {
    NoDup(p.likes) && p.likeCount == |p.likes|
  }

  /** `new Post({ user, image, caption })` followed by validation at `save()` time `now`:
      `None` is the ValidationError raised for a missing owner, a missing or empty image,
      or a caption over 500 UTF-16 code units. Otherwise the defaults apply: no likes,
      `likeCount` 0, no comments, both timestamps `now`. */
  function NewPost(user: Option<UserId>, image: Option<string>, caption: Option<string>, now: int): (r: Option<Post>)
    ensures r.Some? <==> user.Some? && Truthy(image) && CaptionFits(caption)
    ensures r.Some? ==>
      && r.value.user == user.value && r.value.image == image.value && r.value.caption == caption
      && r.value.likes == [] && r.value.likeCount == 0 && r.value.comments == []
      && r.value.createdAt == now && r.value.updatedAt == now
    ensures r.Some? ==> SchemaValid(r.value) && LikeConsistent(r.value)
  {
    if user.None? || !Truthy(image) || !CaptionFits(caption) then None
    else Some(Post(user.value, image.value, caption, [], 0, [], now, now))
  }

  /** An embedded comment as its sub-schema builds it: `text` is required and `createdAt`
      defaults to the creation time. */
  function NewEmbeddedComment(user: Option<UserId>, text: Option<string>, now: int): (r: Option<EmbeddedComment>)
    ensures r.Some? <==> Truthy(text)
    ensures r.Some? ==> r.value.user == user && r.value.text == text.value && r.value.createdAt == now
  {
    if Truthy(text) then Some(EmbeddedComment(user, text.value, now)) else None
  }
}
