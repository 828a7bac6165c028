/** The database as the handlers see it: the three collections (each a map from `_id` to
    document plus the collection's natural order, which is insertion order), the Redis
    cache, and the process-wide refresh-token blacklist; the queries and updates the
    handlers issue through Mongoose; and the invariant every handler keeps. */
module Store {
  import opened Common
  import opened Jwt
  import opened PostModel
  import opened CommentModel
  import opened UserModel
  import opened Cache

  /** What the environment fixes: the token serialisation, bcrypt's hash (salt left out),
      the expiry variables, and whether Mongoose's `strictQuery` strips filter paths that
      are not in the schema. */
  datatype Config = Config(codec: Codec, hash: string -> string, env: Env, strictQuery: bool)

  /** What bcrypt's output is known to satisfy: a hash is a 60-character ASCII string, so
      a stored hash always passes the password path's `minlength: 8` when a later `save()`
      validates the account again. */
  ghost predicate BcryptShape(hash: string -> string) {
    forall p :: Utf16Length(hash(p)) >= MinPassword
  }

  /** `bcrypt.compare(plain, stored)`. */
  function Compare(cfg: Config, plain: string, stored: string): bool {
    cfg.hash(plain) == stored
  }

  datatype World = World(
    users: map<UserId, User>, userOrder: seq<UserId>,
    posts: map<PostId, Post>, postOrder: seq<PostId>,
    comments: map<CommentId, Comment>, commentOrder: seq<CommentId>,
    cache: map<string, Entry>,
    blacklist: set<string>)

  /** The natural order lists each stored document exactly once. */
  ghost predicate Indexed<V>(m: map<string, V>, order: seq<string>) {
    NoDup(order) && forall id :: id in m <==> id in order
  }

  /** The unique indexes on `username` and `email` hold. */
  ghost predicate UniqueAccounts(w: World) {
    forall a, b :: a in w.users && b in w.users && a != b ==>
      w.users[a].username != w.users[b].username && w.users[a].email != w.users[b].email
  }

  /** Every stored `refreshToken` is the text of a token signed with JWT_REFRESH_SECRET:
      the only writes of that field store such a token. */
  ghost predicate RefreshTokensSigned(c: Codec, w: World) {
    forall id :: id in w.users && w.users[id].refreshToken.Some? ==>
      var t := c.decode(w.users[id].refreshToken.value);
      t.Some? && t.value.secret == RefreshSecret
  }

  ghost predicate Invariant(cfg: Config, w: World) {
    && Indexed(w.users, w.userOrder)
    && Indexed(w.posts, w.postOrder)
    && Indexed(w.comments, w.commentOrder)
    && UniqueAccounts(w)
    && RefreshTokensSigned(cfg.codec, w)
  }

  /** The empty database. */
  function Empty(): (w: World)
    ensures forall cfg :: Invariant(cfg, w)
  {
    World(map[], [], map[], [], map[], [], map[], {})
  }

  // ---------------------------------------------------------------------------
  // Reads
  // ---------------------------------------------------------------------------

  /** `findById(id)`; an undefined id matches nothing. */
  function FindUser(w: World, id: Option<UserId>): (r: Option<User>)
    ensures r.Some? <==> id.Some? && id.value in w.users
    ensures r.Some? ==> r.value == w.users[id.value]
  {
    if id.Some? && id.value in w.users then Some(w.users[id.value]) else None
  }

  /** The ids of `order` that are still stored, in order. */
  function Present<V>(order: seq<string>, m: map<string, V>): (r: seq<string>)
    ensures forall x :: x in r <==> x in order && x in m
    ensures forall i :: 0 <= i < |r| ==> r[i] in m
  {
    Filter(order, x => x in m)
  }

  function UserDocs(ids: seq<UserId>, users: map<UserId, User>): (r: seq<UserDoc>)
    requires forall i :: 0 <= i < |ids| ==> ids[i] in users
    ensures |r| == |ids|
    ensures forall i :: 0 <= i < |r| ==> r[i] == UserDoc(ids[i], users[ids[i]])
  {
    seq(|ids|, i requires 0 <= i < |ids| => UserDoc(ids[i], users[ids[i]]))
  }

  function PostDocs(ids: seq<PostId>, posts: map<PostId, Post>): (r: seq<PostDoc>)
    requires forall i :: 0 <= i < |ids| ==> ids[i] in posts
    ensures |r| == |ids|
    ensures forall i :: 0 <= i < |r| ==> r[i] == PostDoc(ids[i], posts[ids[i]])
  {
    seq(|ids|, i requires 0 <= i < |ids| => PostDoc(ids[i], posts[ids[i]]))
  }

  function CommentDocs(ids: seq<CommentId>, comments: map<CommentId, Comment>): (r: seq<CommentDoc>)
    requires forall i :: 0 <= i < |ids| ==> ids[i] in comments
    ensures |r| == |ids|
    ensures forall i :: 0 <= i < |r| ==> r[i] == CommentDoc(ids[i], comments[ids[i]])
  {
    seq(|ids|, i requires 0 <= i < |ids| => CommentDoc(ids[i], comments[ids[i]]))
  }

  /** `User.find()`: every account, in natural order. */
  function AllUsers(w: World): seq<UserDoc> {
    UserDocs(Present(w.userOrder, w.users), w.users)
  }

  /** `populate` of an array of post references: the referenced posts that still exist, in
      the array's order. */
  function PopulatePosts(w: World, ids: seq<PostId>): seq<PostDoc> {
    PostDocs(Present(ids, w.posts), w.posts)
  }

  /** `populate(path, "username profilePic")` of an array of user references. */
  function PopulateUsers(w: World, ids: seq<UserId>): (r: seq<UserSummary>)
    ensures |r| == |Present(ids, w.users)|
  {
    var present := Present(ids, w.users);
    seq(|present|, i requires 0 <= i < |present| =>
      UserSummary(present[i], w.users[present[i]].username, w.users[present[i]].profilePic))
  }

  /** `findOne({ email })`: the first account in natural order with that email. The value
      is trimmed first, as the schema's `trim` setter also applies to query values. */
  function FindUserByEmail(w: World, email: string): (r: Option<UserId>)
    ensures r.Some? ==> r.value in w.users && w.users[r.value].email == Trim(email) && r.value in w.userOrder
    ensures r.None? ==> forall id :: id in w.userOrder && id in w.users ==> w.users[id].email != Trim(email)
  {
    FirstWithEmail(w.userOrder, w.users, Trim(email))
  }

  function FirstWithEmail(order: seq<UserId>, users: map<UserId, User>, email: string): (r: Option<UserId>)
    ensures r.Some? ==> r.value in users && users[r.value].email == email && r.value in order
    ensures r.None? ==> forall id :: id in order && id in users ==> users[id].email != email
  {
    if order == [] then None
    else if order[0] in users && users[order[0]].email == email then Some(order[0])
    else
      assert forall id :: id in order ==> id == order[0] || id in order[1..];
      var r := FirstWithEmail(order[1..], users, email);
      r
  }

  /** On an indexed collection, `findOne({ email })` misses exactly when no account has
      that email. */
  lemma FindUserByEmailMiss(w: World, email: string)
    requires Indexed(w.users, w.userOrder)
    ensures FindUserByEmail(w, email).None? <==> forall id :: id in w.users ==> w.users[id].email != Trim(email)
  {
  }

  /** `findOne({})`: the first stored account in natural order, none only when no account
      is stored. */
  function FindFirstUser(w: World): (r: Option<UserId>)
    ensures r.Some? ==> r.value in w.users && r.value in w.userOrder
    ensures r.None? <==> forall id :: id in w.userOrder ==> id !in w.users
  {
    FirstStored(w.userOrder, w.users)
  }

  function FirstStored(order: seq<UserId>, users: map<UserId, User>): (r: Option<UserId>)
    ensures r.Some? ==> r.value in users && r.value in order
    ensures r.None? <==> forall id :: id in order ==> id !in users
    ensures order != [] && order[0] in users ==> r == Some(order[0])
  {
    if order == [] then None
    else if order[0] in users then Some(order[0])
    else
      assert forall id :: id in order ==> id == order[0] || id in order[1..];
      FirstStored(order[1..], users)
  }

  /** On an indexed collection, `findOne({})` is the account created first. */
  lemma FindFirstUserIndexed(w: World)
    requires Indexed(w.users, w.userOrder)
    ensures FindFirstUser(w) == if w.userOrder == [] then None else Some(w.userOrder[0])
  {
  }

  /** Which account `findOne({})` finds depends only on which ids are stored. */
  lemma {:induction false} FirstStoredSameKeys(order: seq<UserId>, a: map<UserId, User>, b: map<UserId, User>)
    requires forall id :: id in a <==> id in b
    ensures FirstStored(order, a) == FirstStored(order, b)
  {
    if order != [] {
      FirstStoredSameKeys(order[1..], a, b);
    }
  }

  /** Newest first (`sort({ createdAt: -1 })`) as an insertion sort by `stamp`; among equal
      stamps the natural order is kept. */
  function NewestFirst<T(==,!new)>(xs: seq<T>, stamp: T -> int): (r: seq<T>)
    ensures multiset(r) == multiset(xs) && |r| == |xs|
    ensures SortedDesc(r, stamp)
  {
    if xs == [] then []
    else
      assert xs == [xs[0]] + xs[1..];
      InsertNewest(xs[0], NewestFirst(xs[1..], stamp), stamp)
  }

  ghost predicate SortedDesc<T>(s: seq<T>, stamp: T -> int) {
    forall i, j :: 0 <= i < j < |s| ==> stamp(s[i]) >= stamp(s[j])
  }

  /** A head no older than every element of a newest-first tail keeps it newest first. */
  lemma ConsSorted<T>(h: T, s: seq<T>, stamp: T -> int)
    requires SortedDesc(s, stamp) && forall y :: y in s ==> stamp(h) >= stamp(y)
    ensures SortedDesc([h] + s, stamp)
  {
    forall i, j | 0 <= i < j < |[h] + s| ensures stamp(([h] + s)[i]) >= stamp(([h] + s)[j]) {
      assert ([h] + s)[j] == s[j - 1];
      if i > 0 {
        assert ([h] + s)[i] == s[i - 1];
      }
    }
  }

  lemma TailSorted<T>(s: seq<T>, stamp: T -> int)
    requires SortedDesc(s, stamp) && s != []
    ensures SortedDesc(s[1..], stamp)
    ensures forall y :: y in s[1..] ==> stamp(s[0]) >= stamp(y)
  {
    forall y | y in s[1..] ensures stamp(s[0]) >= stamp(y) {
      var k :| 0 <= k < |s[1..]| && s[1..][k] == y;
      assert s[k + 1] == y;
    }
  }

  function InsertNewest<T(==,!new)>(x: T, s: seq<T>, stamp: T -> int): (r: seq<T>)
    requires SortedDesc(s, stamp)
    ensures multiset(r) == multiset(s) + multiset{x} && |r| == |s| + 1
    ensures forall y :: y in r <==> y == x || y in s
    ensures SortedDesc(r, stamp)
  {
    if s == [] then [x]
    else if stamp(x) >= stamp(s[0]) then
      TailSorted(s, stamp);
      assert s == [s[0]] + s[1..];
      ConsSorted(x, s, stamp);
      [x] + s
    else
      assert s == [s[0]] + s[1..];
      TailSorted(s, stamp);
      var rest := InsertNewest(x, s[1..], stamp);
      ConsSorted(s[0], rest, stamp);
      assert multiset([s[0]] + rest) == multiset{s[0]} + multiset(rest);
      [s[0]] + rest
  }

  function PostStamp(d: PostDoc): int { d.post.createdAt }
  function CommentStamp(d: CommentDoc): int { d.comment.createdAt }

  /** Two sequences with the same multiset hold the same elements. */
  lemma SameElements<T>(xs: seq<T>, ys: seq<T>)
    requires multiset(xs) == multiset(ys)
    ensures forall d :: d in xs <==> d in ys
  {
    forall d ensures d in xs <==> d in ys {
      assert d in xs <==> d in multiset(xs);
      assert d in ys <==> d in multiset(ys);
    }
  }

  lemma PostDocsMembers(ids: seq<PostId>, posts: map<PostId, Post>)
    requires forall i :: 0 <= i < |ids| ==> ids[i] in posts
    ensures forall d :: d in PostDocs(ids, posts) <==> d.id in ids && d.post == posts[d.id]
  {
    var docs := PostDocs(ids, posts);
    forall d ensures d in docs <==> d.id in ids && d.post == posts[d.id] {
      if d.id in ids && d.post == posts[d.id] {
        var k :| 0 <= k < |ids| && ids[k] == d.id;
        assert docs[k] == d;
      }
    }
  }

  lemma CommentDocsMembers(ids: seq<CommentId>, comments: map<CommentId, Comment>)
    requires forall i :: 0 <= i < |ids| ==> ids[i] in comments
    ensures forall d :: d in CommentDocs(ids, comments) <==> d.id in ids && d.comment == comments[d.id]
  {
    var docs := CommentDocs(ids, comments);
    forall d ensures d in docs <==> d.id in ids && d.comment == comments[d.id] {
      if d.id in ids && d.comment == comments[d.id] {
        var k :| 0 <= k < |ids| && ids[k] == d.id;
        assert docs[k] == d;
      }
    }
  }

  /** `Post.find({ user: owner }).sort({ createdAt: -1 })`. */
  function PostsByOwner(w: World, owner: UserId): (r: seq<PostDoc>)
    ensures forall d :: d in r <==> d.id in w.posts && d.id in w.postOrder && d.post == w.posts[d.id] && d.post.user == owner
    ensures SortedDesc(r, PostStamp)
  {
    var ids := Filter(Present(w.postOrder, w.posts), id => id in w.posts && w.posts[id].user == owner);
    var docs := PostDocs(ids, w.posts);
    var r := NewestFirst(docs, PostStamp);
    SameElements(r, docs);
    PostDocsMembers(ids, w.posts);
    r
  }

  /** `Comment.find({ postId }).sort({ createdAt: -1 })`. */
  function CommentsOfPost(w: World, postId: PostId): (r: seq<CommentDoc>)
    ensures forall d :: d in r <==> d.id in w.comments && d.id in w.commentOrder && d.comment == w.comments[d.id] && d.comment.postId == postId
    ensures SortedDesc(r, CommentStamp)
  {
    var ids := Filter(Present(w.commentOrder, w.comments), id => id in w.comments && w.comments[id].postId == postId);
    var docs := CommentDocs(ids, w.comments);
    var r := NewestFirst(docs, CommentStamp);
    SameElements(r, docs);
    CommentDocsMembers(ids, w.comments);
    r
  }

  /** On an indexed collection the listing names each comment once. */
  lemma CommentsOfPostDistinct(w: World, postId: PostId)
    requires Indexed(w.comments, w.commentOrder)
    ensures var r := CommentsOfPost(w, postId);
      forall i, j :: 0 <= i < j < |r| ==> r[i].id != r[j].id
  {
    var present := Present(w.commentOrder, w.comments);
    FilterDistinct(w.commentOrder, x => x in w.comments);
    var ids := Filter(present, id => id in w.comments && w.comments[id].postId == postId);
    FilterDistinct(present, id => id in w.comments && w.comments[id].postId == postId);
    var docs := CommentDocs(ids, w.comments);
    assert NoDup(docs) by {
      forall i, j | 0 <= i < j < |docs| ensures docs[i] != docs[j] {
        assert docs[i].id == ids[i] && docs[j].id == ids[j];
      }
    }
    var r := CommentsOfPost(w, postId);
    assert r == NewestFirst(docs, CommentStamp);
    PermutationDistinct(docs, r);
    forall i, j | 0 <= i < j < |r| ensures r[i].id != r[j].id {
      assert r[i] in r && r[j] in r;
      assert r[i] != r[j];
    }
  }

  /** `User.findOne({ _id: id, refreshToken: token })`. A missing `id` would drop the `_id`
      condition, as `findOne` drops every undefined one, and match any account holding the
      token; that case cannot arise, because every token the application signs carries
      `userId`, so here a missing `id` matches nothing. */
  function FindUserWithToken(w: World, id: Option<UserId>, token: string): (r: Option<UserId>)
    ensures r.Some? <==> id.Some? && id.value in w.users && w.users[id.value].refreshToken == Some(token)
    ensures r.Some? ==> r.value == id.value
  {
    if id.Some? && id.value in w.users && w.users[id.value].refreshToken == Some(token) then id else None
  }

  // ---------------------------------------------------------------------------
  // Writes
  // ---------------------------------------------------------------------------

  /** The array updates the handlers send with `findByIdAndUpdate`. */
  datatype UserOp =
    | PushFollowing(x: UserId)
    | PullFollowing(x: UserId)
    | PushFollower(x: UserId)
    | PullFollower(x: UserId)
    | PushPost(p: PostId)

  /** One `$push` (append) or `$pull` (remove every occurrence) on one account. */
  function ApplyOp(u: User, op: UserOp): (r: User)
    ensures op.PushFollowing? ==> r == u.(following := u.following + [op.x])
    ensures op.PullFollowing? ==> r == u.(following := RemoveAll(u.following, op.x))
    ensures op.PushFollower? ==> r == u.(followers := u.followers + [op.x])
    ensures op.PullFollower? ==> r == u.(followers := RemoveAll(u.followers, op.x))
    ensures op.PushPost? ==> r == u.(posts := u.posts + [op.p])
  {
    match op
    case PushFollowing(x) => u.(following := u.following + [x])
    case PullFollowing(x) => u.(following := RemoveAll(u.following, x))
    case PushFollower(x) => u.(followers := u.followers + [x])
    case PullFollower(x) => u.(followers := RemoveAll(u.followers, x))
    case PushPost(p) => u.(posts := u.posts + [p])
  }

  /** `User.findByIdAndUpdate(id, op)`: a missing account is left missing and nothing else
      changes. */
  function UpdateUser(w: World, id: UserId, op: UserOp): (r: World)
    ensures id in w.users ==> r == w.(users := w.users[id := ApplyOp(w.users[id], op)])
    ensures id !in w.users ==> r == w
  {
    if id in w.users then w.(users := w.users[id := ApplyOp(w.users[id], op)]) else w
  }

  /** Inserting a new account (`User.create`): a duplicate key error (`None`) when the
      `_id`, the username or the email is already taken. */
  function InsertUser(w: World, id: UserId, u: User): (r: Option<World>)
    ensures r.Some? <==> id !in w.users && forall o :: o in w.users ==> w.users[o].username != u.username && w.users[o].email != u.email
    ensures r.Some? ==> r.value == w.(users := w.users[id := u], userOrder := w.userOrder + [id])
  {
    if id in w.users || exists o :: o in w.users && (w.users[o].username == u.username || w.users[o].email == u.email) then None
    else Some(w.(users := w.users[id := u], userOrder := w.userOrder + [id]))
  }

  /** `newPost.save()`: a duplicate key error (`None`) when the `_id` is taken. */
  function InsertPost(w: World, id: PostId, p: Post): (r: Option<World>)
    ensures r.Some? <==> id !in w.posts
    ensures r.Some? ==> r.value == w.(posts := w.posts[id := p], postOrder := w.postOrder + [id])
  {
    if id in w.posts then None else Some(w.(posts := w.posts[id := p], postOrder := w.postOrder + [id]))
  }

  /** `newComment.save()`: a duplicate key error (`None`) when the `_id` is taken. */
  function InsertComment(w: World, id: CommentId, c: Comment): (r: Option<World>)
    ensures r.Some? <==> id !in w.comments
    ensures r.Some? ==> r.value == w.(comments := w.comments[id := c], commentOrder := w.commentOrder + [id])
  {
    if id in w.comments then None else Some(w.(comments := w.comments[id := c], commentOrder := w.commentOrder + [id]))
  }

  /** Removing one post (`findByIdAndDelete`). */
  function RemovePost(w: World, id: PostId): (r: World)
    ensures r.posts == w.posts - {id} && r.postOrder == RemoveAll(w.postOrder, id)
    ensures r.users == w.users && r.comments == w.comments && r.cache == w.cache && r.blacklist == w.blacklist
  {
    w.(posts := w.posts - {id}, postOrder := RemoveAll(w.postOrder, id))
  }

  /** Removing one comment (`comment.deleteOne()`). */
  function RemoveComment(w: World, id: CommentId): (r: World)
    ensures r.comments == w.comments - {id} && r.commentOrder == RemoveAll(w.commentOrder, id)
    ensures r.users == w.users && r.posts == w.posts && r.cache == w.cache && r.blacklist == w.blacklist
  {
    w.(comments := w.comments - {id}, commentOrder := RemoveAll(w.commentOrder, id))
  }

  /** `Post.deleteMany({ user: owner })`. */
  function DeletePostsOf(w: World, owner: UserId): (r: World)
    ensures forall id :: id in r.posts <==> id in w.posts && w.posts[id].user != owner
    ensures forall id :: id in r.posts ==> r.posts[id] == w.posts[id]
    ensures r.users == w.users && r.comments == w.comments && r.cache == w.cache && r.blacklist == w.blacklist
    ensures r.postOrder == Present(w.postOrder, r.posts)
    ensures r.userOrder == w.userOrder && r.commentOrder == w.commentOrder
  {
    var kept := map id | id in w.posts && w.posts[id].user != owner :: w.posts[id];
    w.(posts := kept, postOrder := Present(w.postOrder, kept))
  }

  /** `Post.deleteMany({})`. */
  function DeleteAllPosts(w: World): (r: World)
    ensures r.posts == map[] && r.postOrder == []
    ensures r.users == w.users && r.userOrder == w.userOrder
    ensures r.comments == w.comments && r.commentOrder == w.commentOrder
    ensures r.cache == w.cache && r.blacklist == w.blacklist
  {
    w.(posts := map[], postOrder := [])
  }

  /** The `findOneAndDelete` pre-hook with filter `{ _id: id }`: when that account exists,
      every post it owns is deleted first; otherwise nothing happens. */
  function FindOneAndDeleteHook(w: World, id: UserId): (r: World)
    ensures id in w.users ==> r == DeletePostsOf(w, id)
    ensures id !in w.users ==> r == w
  {
    if id in w.users then DeletePostsOf(w, id) else w
  }

  /** `User.findByIdAndDelete(id)`: the pre-hook, then the account's removal. */
  function FindByIdAndDelete(w: World, id: UserId): (r: World)
    ensures id !in w.users ==> r == w
    ensures id in w.users ==>
      && r.users == w.users - {id} && r.userOrder == RemoveAll(w.userOrder, id)
      && (forall p :: p in r.posts <==> p in w.posts && w.posts[p].user != id)
      && (forall p :: p in r.posts ==> r.posts[p] == w.posts[p])
      && r.postOrder == Present(w.postOrder, r.posts)
      && r.comments == w.comments && r.commentOrder == w.commentOrder
      && r.cache == w.cache && r.blacklist == w.blacklist
  {
    var h := FindOneAndDeleteHook(w, id);
    if id in h.users then h.(users := h.users - {id}, userOrder := RemoveAll(h.userOrder, id)) else h
  }

  // ---------------------------------------------------------------------------
  // The invariant under the writes
  // ---------------------------------------------------------------------------

  lemma IndexedInsert<V>(m: map<string, V>, order: seq<string>, id: string, v: V)
    requires Indexed(m, order) && id !in m
    ensures Indexed(m[id := v], order + [id])
  {
    AppendDistinct(order, id);
  }

  lemma IndexedRemove<V>(m: map<string, V>, order: seq<string>, id: string)
    requires Indexed(m, order)
    ensures Indexed(m - {id}, RemoveAll(order, id))
  {
    RemoveAllDistinct(order, id);
  }

  lemma IndexedRestrict<V>(m: map<string, V>, order: seq<string>, kept: map<string, V>)
    requires Indexed(m, order) && kept.Keys <= m.Keys
    ensures Indexed(kept, Present(order, kept))
  {
    FilterDistinct(order, id => id in kept);
  }

  /** Updating arrays of an account touches neither the unique fields nor the stored
      refresh token. */
  lemma UpdateUserKeeps(cfg: Config, w: World, id: UserId, op: UserOp)
    requires Invariant(cfg, w)
    ensures Invariant(cfg, UpdateUser(w, id, op))
  {
    if id in w.users {
      var u := ApplyOp(w.users[id], op);
      assert u.username == w.users[id].username && u.email == w.users[id].email && u.refreshToken == w.users[id].refreshToken;
      SetUserKeeps(cfg, w, id, u);
    }
  }

  /** Replacing an account's document keeps the invariant when the unique fields stay and
      any stored refresh token is the text of a JWT_REFRESH_SECRET token. */
  lemma SetUserKeeps(cfg: Config, w: World, id: UserId, u: User)
    requires Invariant(cfg, w) && id in w.users
    requires u.username == w.users[id].username && u.email == w.users[id].email
    requires u.refreshToken.Some? ==>
      cfg.codec.decode(u.refreshToken.value).Some? && cfg.codec.decode(u.refreshToken.value).value.secret == RefreshSecret
    ensures Invariant(cfg, w.(users := w.users[id := u]))
  {
    var w' := w.(users := w.users[id := u]);
    assert w'.users.Keys == w.users.Keys;
    forall a, b | a in w'.users && b in w'.users && a != b
      ensures w'.users[a].username != w'.users[b].username && w'.users[a].email != w'.users[b].email
    {
      assert w'.users[a].username == w.users[a].username && w'.users[a].email == w.users[a].email;
      assert w'.users[b].username == w.users[b].username && w'.users[b].email == w.users[b].email;
    }
  }

  /** Replacing an account's document under a username no other account holds (the
      email and the refresh token unchanged) keeps the invariant. */
  lemma RenameUserKeeps(cfg: Config, w: World, id: UserId, u: User)
    requires Invariant(cfg, w) && id in w.users
    requires u.email == w.users[id].email && u.refreshToken == w.users[id].refreshToken
    requires forall o :: o in w.users && o != id ==> w.users[o].username != u.username
    ensures Invariant(cfg, w.(users := w.users[id := u]))
  {
    var w' := w.(users := w.users[id := u]);
    assert w'.users.Keys == w.users.Keys;
    forall a, b | a in w'.users && b in w'.users && a != b
      ensures w'.users[a].username != w'.users[b].username && w'.users[a].email != w'.users[b].email
    {
      if a != id && b != id {
        assert w'.users[a] == w.users[a] && w'.users[b] == w.users[b];
      }
    }
  }

  lemma InsertUserKeeps(cfg: Config, w: World, id: UserId, u: User)
    requires Invariant(cfg, w) && InsertUser(w, id, u).Some? && u.refreshToken.None?
    ensures Invariant(cfg, InsertUser(w, id, u).value)
  {
    IndexedInsert(w.users, w.userOrder, id, u);
  }

  lemma InsertPostKeeps(cfg: Config, w: World, id: PostId, p: Post)
    requires Invariant(cfg, w) && InsertPost(w, id, p).Some?
    ensures Invariant(cfg, InsertPost(w, id, p).value)
  {
    IndexedInsert(w.posts, w.postOrder, id, p);
  }

  lemma InsertCommentKeeps(cfg: Config, w: World, id: CommentId, c: Comment)
    requires Invariant(cfg, w) && InsertComment(w, id, c).Some?
    ensures Invariant(cfg, InsertComment(w, id, c).value)
  {
    IndexedInsert(w.comments, w.commentOrder, id, c);
  }

  lemma RemovePostKeeps(cfg: Config, w: World, id: PostId)
    requires Invariant(cfg, w)
    ensures Invariant(cfg, RemovePost(w, id))
  {
    IndexedRemove(w.posts, w.postOrder, id);
  }

  lemma RemoveCommentKeeps(cfg: Config, w: World, id: CommentId)
    requires Invariant(cfg, w)
    ensures Invariant(cfg, RemoveComment(w, id))
  {
    IndexedRemove(w.comments, w.commentOrder, id);
  }

  lemma DeleteAllPostsKeeps(cfg: Config, w: World)
    requires Invariant(cfg, w)
    ensures Invariant(cfg, DeleteAllPosts(w))
  {
  }

  /** The cache is not part of the invariant. */
  lemma CacheKeeps(cfg: Config, w: World, c: map<string, Entry>)
    requires Invariant(cfg, w)
    ensures Invariant(cfg, w.(cache := c))
  {
  }

  lemma FindByIdAndDeleteKeeps(cfg: Config, w: World, id: UserId)
    requires Invariant(cfg, w)
    ensures Invariant(cfg, FindByIdAndDelete(w, id))
  {
    if id in w.users {
      var kept := map p | p in w.posts && w.posts[p].user != id :: w.posts[p];
      IndexedRestrict(w.posts, w.postOrder, kept);
      var h := FindOneAndDeleteHook(w, id);
      IndexedRemove(h.users, h.userOrder, id);
    }
  }
}
