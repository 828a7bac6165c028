/** The Redis read cache used by the user controller: the three key families, the JSON
    snapshots stored under them, and the expiry (in seconds) each is written with. The
    expiry is recorded as a number; entries are never expired by the clock in this model. */
module Cache {
  import opened Common
  import opened PostModel
  import opened UserModel

  /** The `stats` object of a profile response. */
  datatype Stats = Stats(posts: nat, followers: nat, following: nat)

  /** The profile response: `bio` and `liked` are not schema fields, so they are
      `undefined` and disappear from the JSON. `posts` is the populated list. */
  datatype ProfileView = ProfileView(id: UserId, username: string, profilePic: string, posts: seq<PostDoc>, stats: Stats)

  /** The JSON text stored under a key, as the value `JSON.parse` gives back. */
  datatype Snapshot =
    | ProfileSnap(view: ProfileView)
    | PostsSnap(posts: seq<PostDoc>)
    | UsersSnap(users: seq<UserDoc>)

  /** A cached value and the expiry passed with `'EX'`. */
  datatype Entry = Entry(value: Snapshot, ttl: nat)

  const ProfileTtl: nat := 3600
  const UserPostsTtl: nat := 1800
  const AllUsersTtl: nat := 3600

  /** A template-literal rendering of a possibly undefined identifier. */
  function Interpolate(id: Option<UserId>): string {
    id.GetOr("undefined")
  }

  function UserKey(id: UserId): string { "user:" + id }
  function UserPostsKey(id: UserId): string { "userPosts:" + id }
  const AllUsersKey: string := "allUsers"

  /** The three key families never collide, and each family is injective in the id. */
  lemma KeysDistinct(a: UserId, b: UserId)
    ensures UserKey(a) != UserPostsKey(b)
    ensures UserKey(a) != AllUsersKey && UserPostsKey(b) != AllUsersKey
    ensures UserKey(a) == UserKey(b) <==> a == b
    ensures UserPostsKey(a) == UserPostsKey(b) <==> a == b
  {
    assert UserKey(a)[4] == ':' && UserPostsKey(b)[4] == 'P';
    assert UserKey(a)[0] == 'u' && UserPostsKey(b)[0] == 'u' && AllUsersKey[0] == 'a';
    if UserKey(a) == UserKey(b) {
      assert a == UserKey(a)[5..] && b == UserKey(b)[5..];
    }
    if UserPostsKey(a) == UserPostsKey(b) {
      assert a == UserPostsKey(a)[10..] && b == UserPostsKey(b)[10..];
    }
  }

  /** `redisClient.get(key)`: a stored JSON text is never empty, so `if (cached)` takes
      the hit branch exactly when the key is present. */
  function Get(c: map<string, Entry>, key: string): (r: Option<Snapshot>)
    ensures r.Some? <==> key in c
    ensures r.Some? ==> r.value == c[key].value
  {
    if key in c then Some(c[key].value) else None
  }

  /** `redisClient.set(key, JSON.stringify(v), 'EX', ttl)`. */
  function Set(c: map<string, Entry>, key: string, v: Snapshot, ttl: nat): (r: map<string, Entry>)
    ensures r.Keys == c.Keys + {key} && r[key] == Entry(v, ttl)
    ensures forall k :: k in c && k != key ==> r[k] == c[k]
  {
    c[key := Entry(v, ttl)]
  }

  /** `redisClient.del(key)`. */
  function Del(c: map<string, Entry>, key: string): (r: map<string, Entry>)
    ensures r.Keys == c.Keys - {key}
    ensures forall k :: k in r ==> r[k] == c[k]
  {
    c - {key}
  }
}
