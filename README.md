# privex-backend: session, social graph and cache, modelled in Dafny

This project models the request handlers of the privex-backend social-media server:

- the `isLoggedIn` gate, with its bearer-token parser and the silent refresh of an expired
  access token;
- registration, password login with a six-digit one-time code, and code verification that
  stores a refresh token;
- follow/unfollow, the Redis read-through cache under `user:<id>`, `userPosts:<id>` and
  `allUsers`, profile update, logout by blacklisting, and account deletion with its
  `findOneAndDelete` cascade;
- post creation, the owner-checked update and delete, the like toggle with its counter,
  and the populated like listing;
- the comment routes (add, fetch, delete, like);
- the Mongoose schemas of users, posts and comments: setters, defaults, validators, the
  pre-save hashing hook and the token methods.

The database is a value `Store.World`. It holds one map per collection (`_id` to document),
each collection's insertion order, the cache (key to snapshot and expiry) and the
refresh-token blacklist. Each handler is modelled twice:

- a pure transition function from a world and the request to a new world and a response
  (`UserController`, `PostController`, `AuthController`, `CommentRoutes`, `AuthGate`), about
  which the lemmas are stated;
- a method of the class `Server.Backend`. The class holds the same state in mutable fields
  and performs the handler's steps in order. Each method is proved to produce exactly the
  function's state and response and to keep the store invariant `Store.Invariant`.

The invariant says each natural order lists every stored document once, the unique indexes
on `username` and `email` hold, and every stored refresh token was signed with
JWT_REFRESH_SECRET. It does not say stored documents pass their schema: updates through
`findByIdAndUpdate` run no validators. Every `save()` of a loaded document validates all
of it (`PostModel.SchemaValid`, `UserModel.UserSchemaValid`) and fails with a 500 when it
does not pass. Mongoose's length limits count UTF-16 code units (`Common.Utf16Length`).

Identity is passed as the decoded claims (`Jwt.Claims`). Each handler reads the field the
code reads: `req.user.id` in `followUser`, `updatePost`, `deletePost` and the comment
routes; `req.user.userId` elsewhere; the body's `userId` in `likePost`. The gate only ever
sets `userId`. Where this makes a handler unusable, the model keeps the handler as written
and adds a corrected twin, both proved; see "## Findings".

Where the system's design documentation and the code disagree, the model follows the code:

- Follow deletes only the two `user:` keys, not `allUsers`.
- Profile update deletes only `user:<id>`.
- Account deletion leaves the deleted id in other accounts' follow lists.
- Post creation and likes touch no cache key.
- Post `likes` are plain user ids, not snapshots.
- Logout only adds the token to the blacklist; the stored refresh token stays on the account.
- Login signs its refresh token with JWT_SECRET and never stores it.

Nothing in the environment is executed. The clock (`now`), the value `Math.random()`
returns (`rnd`), new `_id`s (`newId`), the validator errors and the uploaded file are
parameters. bcrypt is a hash function in `Store.Config`; `Store.BcryptShape` (every hash
is at least 8 UTF-16 code units long, as bcrypt's 60-character output is) is an assumption
of `Server.Backend` and of `AuthController.RegisterThenLogin`. The compact token text is an
abstract `Jwt.Codec`, with `Jwt.Sound` (decoding reads back what encoding wrote) and
`Jwt.Compact` (the text is never empty and never contains a space) as assumptions of the
lemmas that need them. Mongoose's `strictQuery` setting is a flag of the configuration.

## Model

| member | source | states |
|---|---|---|
| Common.RemoveAll | controllers/userController.js:26-27 | `$pull` leaves no occurrence of the value, keeps every other element, and never lengthens the list; order and multiplicity are the two lemmas below |
| Common.RemoveAllMultiset | controllers/userController.js:26-27 | the removal keeps each other element with its multiplicity and drops every copy of the value |
| Common.RemoveAllConcat | controllers/userController.js:26-27 | removal distributes over concatenation, so the remaining elements keep their order |
| Common.Utf16Length | models/post.model.js:7 | the JavaScript length lies between the character count and twice it, and equals the character count exactly when no character lies outside the Basic Multilingual Plane |
| Common.AstralLength | models/post.model.js:7 | characters outside the Basic Multilingual Plane count two code units each |
| Common.TrimEmpty | routes/commentRoutes.js:13 | `trim()` gives the empty string exactly when every character is JavaScript whitespace |
| Common.TrimPiece | models/user.model.js:10-11 | the trimmed string is the slice of the original between leading and trailing whitespace, and starts and ends with a non-space |
| Common.NatToStringValue | controllers/authController.js:107 | the decimal rendering of `toString()` reads back as the same number |
| Jwt.Sign | utils/jwt.js:3-9 | `jwt.sign` throws when `expiresIn` is undefined; otherwise the token carries the secret, the claims, `iat = now` and `exp = now + span` |
| Jwt.SignedTokenVerdict | middlewares/authMiddleware.js:16-18 | a signed token verifies with its own claims before its expiry, is reported expired (never invalid) from then on, and is invalid under the other secret |
| Jwt.ValidMeansSignedWith | middlewares/authMiddleware.js:25-28 | verification succeeds only for text that decodes to a token signed with the secret used |
| Jwt.UtilTokens | utils/jwt.js:3-9 | both utility signers carry only `userId`, each under its own secret, and each fails exactly when its expiry variable is unset |
| PostModel.NewPost | models/post.model.js:3-19 | a new post validates exactly when it has an owner, a non-empty image and a caption of at most 500 UTF-16 code units; the defaults are no likes, `likeCount` 0, no comments, both timestamps now |
| PostModel.NewEmbeddedComment | models/post.model.js:10-16 | an embedded comment needs a text; `createdAt` defaults to the creation time |
| CommentModel.NewComment | models/comment.model.js:2-10 | a comment validates exactly when `postId`, `userId` and a non-empty text are present; the text is stored as given, with no likes and both timestamps now |
| UserModel.NewUser | models/user.model.js:10-24 | username and email are trimmed and required, and the password needs at least 8 UTF-16 code units; all other fields take the schema defaults, and the result passes the schema as later saves check it |
| UserModel.NewUserTrimmed | models/user.model.js:10-11 | a stored username and email neither start nor end with whitespace |
| UserModel.PreSaved | models/user.model.js:30-34 | the password is replaced by its hash if and only if it was modified |
| UserModel.ModelAccessToken | models/user.model.js:37-43 | `{ userId, email }` under JWT_SECRET, expiring after JWT_ACCESS_EXPIRY or one hour |
| UserModel.ModelRefreshToken | models/user.model.js:46-51 | `{ userId }` under JWT_REFRESH_SECRET, expiring after JWT_REFRESH_EXPIRY or seven days |
| UserModel.SecretFor | models/user.model.js:59-60 | the refresh secret is chosen if and only if the type is "refresh" |
| UserModel.VerifyToken | models/user.model.js:57-65 | returns the claims exactly when `jwt.verify` succeeds with the chosen secret, and null on every failure, expiry included |
| UserModel.RefreshTokenRoundTrip | models/user.model.js:46-65 | a model refresh token passes `verifyToken(t, "refresh")` until it expires, never passes after that, and never passes with the default type |
| UserModel.AccessTokenRoundTrip | models/user.model.js:37-65 | a model access token passes `verifyToken` with the default type before it expires and never passes with type "refresh" |
| UserModel.UserDocument.Create | models/user.model.js:30-31 | a created document counts its password as modified |
| UserModel.UserDocument.Load | models/user.model.js:30-31 | a loaded document has nothing modified |
| UserModel.UserDocument.PreSave | models/user.model.js:30-34 | the document's password is hashed only when it was modified; nothing else changes |
| UserModel.UserDocument.GenerateAccessToken | models/user.model.js:37-43 | signs with the document's own id and email |
| UserModel.UserDocument.GenerateRefreshToken | models/user.model.js:46-54 | assigns the new token to `this.refreshToken` and returns that same text; nothing else changes |
| Cache.KeysDistinct | controllers/userController.js:89-182 | the `user:`, `userPosts:` and `allUsers` keys never collide, and each family is injective in the id |
| Cache.Get | controllers/userController.js:89-92 | a lookup hits exactly when the key is present and returns the stored snapshot |
| Cache.Set | controllers/userController.js:115 | `set` stores the snapshot and its expiry under the key and keeps every other entry |
| Cache.Del | controllers/userController.js:141 | `del` removes exactly the key and keeps every other entry |
| Store.FindUser | controllers/userController.js:95 | `findById` returns the stored account exactly when the id is defined and present |
| Store.FindUserByEmail | controllers/authController.js:28-31 | `findOne({ email })` returns an account whose email is the trimmed query, or there is no such account in the collection |
| Store.FindFirstUser | controllers/authController.js:132 | `findOne({})` finds a stored account, and finds none exactly when no account is stored |
| Store.FindFirstUserIndexed | controllers/authController.js:132 | on an indexed collection, `findOne({})` is the account created first |
| Store.FirstStoredSameKeys | controllers/authController.js:132 | which account `findOne({})` finds depends only on which ids are stored, not on their contents |
| Store.FindUserByEmailMiss | controllers/authController.js:28-31 | on an indexed collection, the lookup misses if and only if no stored account has that email |
| Store.NewestFirst | controllers/userController.js:161 | `sort({ createdAt: -1 })` is a permutation of its input, newest first |
| Store.PostsByOwner | controllers/userController.js:161 | the listing holds exactly the stored posts of the owner, newest first |
| Store.CommentsOfPost | routes/commentRoutes.js:31-33 | the listing holds exactly the stored comments of the post, newest first |
| Store.CommentsOfPostDistinct | routes/commentRoutes.js:31-33 | on an indexed collection the listing names each comment once |
| Store.FindUserWithToken | middlewares/authMiddleware.js:31 | finds an account if and only if the id exists and its stored refresh token equals the cookie |
| Store.ApplyOp | controllers/userController.js:26-33 | `$push` appends one id and `$pull` removes every occurrence, each in one list of one account |
| Store.UpdateUser | controllers/userController.js:26-33 | `findByIdAndUpdate` changes only that account, and does nothing when the account is missing |
| Store.InsertUser | controllers/authController.js:34 | `User.create` fails on a taken `_id`, username or email; otherwise it adds exactly that account at the end of the natural order |
| Store.InsertPost | controllers/postController.js:70 | `save()` fails on a taken `_id`, else adds exactly that post |
| Store.InsertComment | routes/commentRoutes.js:16 | `save()` fails on a taken `_id`, else adds exactly that comment |
| Store.RemovePost | controllers/postController.js:113 | removes exactly that post; nothing else changes |
| Store.RemoveComment | routes/commentRoutes.js:50 | removes exactly that comment; nothing else changes |
| Store.DeletePostsOf | models/user.model.js:92 | `Post.deleteMany({ user })` keeps exactly the posts of other owners, unchanged and in their natural order; the other collections, the cache and the blacklist are unchanged |
| Store.DeleteAllPosts | controllers/userController.js:219 | a filter stripped to `{}` empties the posts and their order; accounts, comments, their orders, cache and blacklist are unchanged |
| Store.FindOneAndDeleteHook | models/user.model.js:79-100 | when the matched account exists, all its posts are deleted first; when it does not, nothing is deleted |
| Store.FindByIdAndDelete | controllers/userController.js:226 | the account is removed together with exactly the posts it owns, the other posts unchanged and still in their natural order; comments, cache and blacklist are unchanged |
| Store.UpdateUserKeeps | controllers/userController.js:26-33 | `$push`/`$pull` on an account's arrays keep the store invariant |
| Store.SetUserKeeps | controllers/authController.js:146-148 | saving an account with its unique fields unchanged and any stored refresh token signed with the refresh secret keeps the invariant |
| Store.RenameUserKeeps | controllers/userController.js:131-135 | saving an account under a username no other account holds keeps the invariant |
| Store.InsertUserKeeps | models/user.model.js:10-11 | adding a new account without a refresh token keeps the invariant |
| Store.FindByIdAndDeleteKeeps | models/user.model.js:79-100 | the cascading account deletion keeps the invariant |
| UserController.FollowWrites | controllers/userController.js:25-33 | both `findByIdAndUpdate` calls together: the pull or push on the two lists, no other account changed |
| UserController.FollowGuards | controllers/userController.js:14-21 | following yourself is 400 and a missing target 404; neither changes anything |
| UserController.FollowToggle | controllers/userController.js:23-36 | not yet following: both lists get the other's id appended, "User followed!". Already following: every occurrence is removed from both, "User unfollowed!". No other account, post or comment changes |
| UserController.FollowCacheKeys | controllers/userController.js:28-35 | both branches delete exactly `user:<me>` and `user:<target>`; `allUsers` and every `userPosts:` entry stay |
| UserController.FollowTwiceRestores | controllers/userController.js:23-36 | follow then follow again, from a state where neither list holds the other, restores every account |
| UserController.FollowAsWired | controllers/userController.js:12-41 | with no `id` claim (every request the gate lets through), follow never succeeds: 404 or 500, nothing changes |
| UserController.FollowCorrectedWorks | controllers/userController.js:12-36 | reading `userId`, an existing account can follow another existing one |
| UserController.FollowKeeps | controllers/userController.js:9-42 | follow keeps the store invariant |
| UserController.ProfileOf | controllers/userController.js:98-110 | the profile carries the account's id, username and picture, its populated posts, and stats equal to the lengths of those posts and of the follow lists |
| UserController.CacheHits | controllers/userController.js:89-179 | a hit on any of the three keys answers with the cached value and changes nothing |
| UserController.CacheMisses | controllers/userController.js:89-182 | a miss answers with what it loads from the store and caches exactly that, with expiries 3600, 1800 and 3600; an unknown profile is 404 and caches nothing |
| UserController.ReadsRepeat | controllers/userController.js:89-182 | repeating a read gives the same answer and the same state |
| UserController.ProfileStats | controllers/userController.js:98-110 | the follower and following counts are the list lengths at load time; the post count is the length of `posts` when every referenced post exists |
| UserController.UserPostsListing | controllers/userController.js:161-165 | the cached post listing holds exactly the owner's stored posts, newest first |
| UserController.AllUsersListing | controllers/userController.js:181-183 | the full listing holds every stored account with all its fields |
| UserController.ProfileSaved | controllers/userController.js:131-143 | the saved update stores the new document, deletes `user:<id>` and answers with the updated account |
| UserController.UpdateProfileUnknown | controllers/userController.js:137-139 | an unknown account is 404 and nothing changes |
| UserController.UpdateProfileEffect | controllers/userController.js:131-146 | a failed update (500) changes nothing. A successful one changes only the username (when sent, trimmed) and the picture (when a file was uploaded) of that account, and deletes only `user:<id>` |
| UserController.UpdateProfileKeeps | controllers/userController.js:126-148 | the profile update keeps the store invariant |
| UserController.Logout | controllers/userController.js:195-206 | without a cookie the answer is 401; with one the token joins the blacklist |
| UserController.LogoutEffect | controllers/userController.js:192-213 | logout without a cookie changes nothing. With one, only the blacklist grows by that token and the cookie is cleared; the stored refresh token stays |
| UserController.RemoveAccount | controllers/userController.js:226-231 | the account deletion with its hook, then removal of exactly `user:<id>` and `userPosts:<id>` |
| UserController.DeleteUnknownAccount | controllers/userController.js:219-224 | an unknown account is 404, yet under `strictQuery` every post has already been deleted; without it nothing changes |
| UserController.DeleteExistingAccount | controllers/userController.js:216-236 | the account is removed and exactly `user:<id>` and `userPosts:<id>` leave the cache (`allUsers` stays). Its posts go (every post under `strictQuery`); the surviving posts keep their content and natural order, and the comments and the blacklist are unchanged |
| UserController.DeleteAccountKeeps | controllers/userController.js:216-236 | account deletion keeps the store invariant |
| PostController.CreateRejects | controllers/postController.js:48-60 | a missing file or caption is 400, then a missing `userId` is 401; no failed create writes anything |
| PostController.CreateStores | controllers/postController.js:63-77 | a create succeeds exactly when the image is non-empty, the caption is at most 500 UTF-16 code units and the id is free. It stores the requester's post with the caption and image, appends its id to the owner's `posts`, and leaves the cache untouched |
| PostController.CreateCountsCodeUnits | controllers/postController.js:63-80 | a caption of 251 emoji (502 code units) fails validation: 500, nothing written |
| PostController.CreateKeeps | controllers/postController.js:44-82 | post creation keeps the store invariant |
| PostController.OwnerField | controllers/postController.js:91 | of the owner paths read, only `user` is defined on a post document |
| PostController.Patched | controllers/postController.js:94-97 | the update sets every sent schema path (owner, image, caption, likes, counter, comments), keeps the others and `createdAt`, and bumps `updatedAt` |
| PostController.UpdateDeleteAsWritten | controllers/postController.js:85-118 | as written, every update or delete of an existing post is a 500 that changes nothing |
| PostController.UpdateDeleteCorrected | controllers/postController.js:88-114 | corrected: 404 for a missing post, 403 for another owner, and only otherwise that one post is patched with the whole body or removed; no other document changes |
| PostController.UpdateHandsOver | controllers/postController.js:94-97 | an owner who sends `user` hands the post over: the previous owner then gets 403 and the new one may delete it |
| PostController.UpdateDeleteKeep | controllers/postController.js:85-118 | update and delete keep the store invariant |
| PostController.LikeMissing | controllers/postController.js:126-135 | a missing post or account is 404 and nothing changes |
| PostController.LikeToggles | controllers/postController.js:138-169 | the save fails with 500 and no write exactly when the stored post does not pass the schema; otherwise only that post changes: a like appends the user and adds one to `likeCount` with "Post liked"; an unlike removes every occurrence and subtracts one with "Post unliked" |
| PostController.ToggleKeepsConsistent | controllers/postController.js:138-149 | when each liker occurs once and `likeCount` equals the length of `likes`, the toggle keeps both facts |
| PostController.ToggleDriftsOnDuplicates | controllers/postController.js:141-144 | without that assumption the counter drifts: a user liked twice is removed twice but subtracted once |
| PostController.LikeTwiceRestores | controllers/postController.js:138-162 | like then unlike, from "not liked", restores `likes` and `likeCount`; for a post the schema accepts the second message is "Post unliked" |
| PostController.LikeKeeps | controllers/postController.js:120-169 | the like toggle keeps the store invariant |
| PostController.LikesCount | controllers/postController.js:177-192 | a missing post is 404. Otherwise `likesCount` counts the likers that still exist, which is the length of `likes` when all of them do. Nothing changes |
| AuthController.FindByEmailField | controllers/authController.js:132-135 | a missing email is dropped from the filter, so the lookup is `findOne({})`: the first stored account, none only when no account is stored; otherwise the first account with that email |
| AuthController.RegisterRejects | controllers/authController.js:14-31 | validator errors, a missing field or a registered email give 400; no failed registration writes anything |
| AuthController.RegisterCreates | controllers/authController.js:34-57 | a successful registration adds exactly one account (trimmed fields, hashed password, defaults, no stored refresh token), answers with its id, username, email and access token, and sets a refresh cookie for that id |
| AuthController.RegisterKeeps | controllers/authController.js:11-62 | registration keeps the store invariant |
| AuthController.OtpCode | controllers/authController.js:107 | the drawn code lies in [100000, 999999] |
| AuthController.OtpShape | controllers/authController.js:107-109 | the stored code is six decimal digits whose value is the number drawn |
| AuthController.LoginAccessToken | controllers/authController.js:93 | `{ userId }` under JWT_SECRET for one hour; `role` is absent |
| AuthController.LoginRefreshToken | controllers/authController.js:94 | `{ userId }` under JWT_SECRET for seven days |
| AuthController.LoginUniformError | controllers/authController.js:80-90 | an unknown email and a wrong password give the identical 400 and change nothing |
| AuthController.LoginIssuesCode | controllers/authController.js:80-118 | a 200 from login means no validator errors, a found account, a matching password and a stored account the schema accepts; the outcome is then `LoginSucceeded` |
| AuthController.LoginSuccessEffect | controllers/authController.js:93-121 | once the password matched, an account the schema rejects gets 500 with the refresh cookie and no write. Otherwise login only overwrites the code with a new six-digit code and stores no refresh token; it answers with the one-hour access token and the stored account, and the cookie holds the seven-day refresh token |
| AuthController.LoginKeeps | controllers/authController.js:64-123 | login keeps the store invariant |
| AuthController.VerifyOtpRejects | controllers/authController.js:132-140 | an unknown email, or a missing one when no account is stored, is 400 "User not found"; no stored code or a different code is 400 "Invalid OTP"; no failure writes anything |
| AuthController.VerifyOtpStores | controllers/authController.js:143-157 | verification succeeds exactly when the stored code is non-empty and equal, both expiry variables are set and the stored account passes the schema. It then stores a JWT_REFRESH_SECRET token for the account, clears the code, changes nothing else and sets the access cookie |
| AuthController.VerifyOtpWithoutEmail | controllers/authController.js:126-157 | without an email the code is checked against the account created first: verification succeeds exactly when that account's code is non-empty and equal to the one sent (expiry variables set, schema accepted), and then stores the refresh token on that account and clears its code |
| AuthController.RegisterThenLogin | controllers/authController.js:11-121 | with bcrypt's hash, an account just registered logs in with the same email and password: 200, and the account then holds a six-digit code |
| AuthController.BlankNameLocksOut | controllers/authController.js:107-121 | after a profile update to a blank username, the login save and the verification save both fail with 500 and write nothing |
| AuthController.VerifyOtpOnce | controllers/authController.js:138-148 | the code is single-use: the same verification repeated fails with "Invalid OTP" |
| AuthController.VerifyOtpKeeps | controllers/authController.js:126-162 | code verification keeps the store invariant, in particular that stored refresh tokens are signed with the refresh secret |
| AuthController.IssuedTokensCarryNoId | controllers/authController.js:93 | no access token the application signs carries an `id` claim |
| AuthController.LoginTokenPassesWithoutId | middlewares/authMiddleware.js:53-57 | a fresh login token passes the gate with claims whose `id` is missing |
| AuthGate.BearerToken | middlewares/authMiddleware.js:7 | the token is the second space-separated word of the header, or absent when there is no header or no second word |
| AuthGate.BearerRoundTrip | middlewares/authMiddleware.js:7 | a header `scheme token` of space-free words yields exactly the token |
| AuthGate.BearerSecondWord | middlewares/authMiddleware.js:7 | words after the second do not change the token |
| AuthGate.BearerShape | middlewares/authMiddleware.js:7 | an extracted token is a space-free word right after the first space, running to the next space or the end |
| AuthGate.RenewedAccessToken | middlewares/authMiddleware.js:37-41 | the refresh issues `{ userId }` under JWT_SECRET for one hour |
| AuthGate.DecideCorrected | middlewares/authMiddleware.js:25 | the gate with the refresh cookie checked against JWT_REFRESH_SECRET |
| AuthGate.MissingAccessToken | middlewares/authMiddleware.js:11-13 | no access token is 401 whatever the cookie and the store |
| AuthGate.ValidAccessToken | middlewares/authMiddleware.js:53-57 | a valid access token proceeds with exactly its decoded claims and no new token |
| AuthGate.InvalidAccessIgnoresCookie | middlewares/authMiddleware.js:50-52 | a failure other than expiry is 401, independent of the cookie and the store |
| AuthGate.ExpiredAccessToken | middlewares/authMiddleware.js:18-34 | expired access: no cookie is 401, a cookie failing verification is 403, and no account with that id and stored token is 403 "User not found" |
| AuthGate.RefreshIssuesWorkingToken | middlewares/authMiddleware.js:37-48 | a refresh proceeds as the account holding the cookie, and the new header carries a token the gate accepts as that account for the next hour |
| AuthGate.RefreshLooksUpOnly | middlewares/authMiddleware.js:25-34 | a refresh of the gate as written requires a cookie signed with JWT_SECRET |
| AuthGate.GateNeverRefreshes | middlewares/authMiddleware.js:25-34 | under the store invariant the silent refresh of the gate as written never happens |
| AuthGate.CorrectedGateRefreshes | middlewares/authMiddleware.js:25-48 | corrected, an expired access token plus the unexpired stored refresh token refreshes as that account |
| AuthGate.Exchange.Apply | middlewares/authMiddleware.js:5-63 | a rejection sends one response and does not call `next`; a pass calls `next` once and sets `req.user` (and the header on a refresh); never both |
| CommentRoutes.AddRejects | routes/commentRoutes.js:13 | a missing text is 500 and a blank text 400; no failed add writes anything |
| CommentRoutes.AddStores | routes/commentRoutes.js:15-22 | a non-blank comment by a known author is saved exactly when its id is free, with that post, author and untrimmed text and no likes, and answered 201 |
| CommentRoutes.AddAsWritten | routes/commentRoutes.js:11-24 | as written (author `req.user.id`), no comment can be added: 500 |
| CommentRoutes.AddCorrectedStores | routes/commentRoutes.js:11-22 | reading `userId`, an authenticated requester's non-blank comment is saved with the requester as author and answered 201 |
| CommentRoutes.AddKeeps | routes/commentRoutes.js:8-26 | adding a comment keeps the store invariant |
| CommentRoutes.FetchListing | routes/commentRoutes.js:31-35 | the fetch returns exactly the post's stored comments, each once, newest first, and changes nothing |
| CommentRoutes.DeleteGuards | routes/commentRoutes.js:45-56 | a missing comment is 404 and another author's 403, without writing; only the author removes it, nothing else changing |
| CommentRoutes.DeleteAsWritten | routes/commentRoutes.js:48 | as written, every existing comment is refused with 403, its author included |
| CommentRoutes.DeleteCorrectedByAuthor | routes/commentRoutes.js:48-56 | corrected, the author of a comment can delete it |
| CommentRoutes.DeleteKeeps | routes/commentRoutes.js:42-60 | comment deletion keeps the store invariant |
| CommentRoutes.LikeCommentToggles | routes/commentRoutes.js:66-84 | for any requester, defined or not: a missing comment is 404; a found requester with a `null` entry present is 500 with no write; otherwise only that comment's likes change, every occurrence of the requester removed when found and the requester appended when not |
| CommentRoutes.LikeAsWritten | routes/commentRoutes.js:66-77 | as written (requester `req.user.id`), the first like stores a `null` entry with 200 and the next like request is a 500 that changes nothing |
| CommentRoutes.LikeCommentTwiceRestores | routes/commentRoutes.js:66-77 | reading `userId`, two toggles by an authenticated user from "not liked" both answer 200 and restore the like list |
| CommentRoutes.LikeCommentKeeps | routes/commentRoutes.js:63-87 | the comment like toggle keeps the store invariant |
| Server.Backend.IsLoggedIn | middlewares/authMiddleware.js:5-63 | behaves as `AuthGate.Decide`, carried out on the exchange; the store is only read |
| Server.Backend.IsLoggedInCorrected | middlewares/authMiddleware.js:25-48 | behaves as `AuthGate.DecideCorrected`, carried out on the exchange; the store is only read |
| Server.Backend.FollowUser | controllers/userController.js:9-42 | behaves as `UserController.Follow` |
| Server.Backend.FollowUserCorrected | controllers/userController.js:9-42 | behaves as `UserController.FollowCorrected` |
| Server.Backend.FollowUserAs | controllers/userController.js:14-41 | behaves as `UserController.FollowAs` |
| Server.Backend.FollowToggled | controllers/userController.js:23-36 | behaves as `UserController.FollowToggled`: the two updates, then the two cache deletions |
| Server.Backend.FollowWrites | controllers/userController.js:25-33 | behaves as `UserController.FollowWrites`: the two `findByIdAndUpdate` calls |
| Server.Backend.GetUserProfile | controllers/userController.js:84-122 | behaves as `UserController.GetUserProfile` |
| Server.Backend.GetUserPosts | controllers/userController.js:151-171 | behaves as `UserController.GetUserPosts` |
| Server.Backend.GetAllUser | controllers/userController.js:174-189 | behaves as `UserController.GetAllUser` |
| Server.Backend.UpdateUserProfile | controllers/userController.js:126-148 | behaves as `UserController.UpdateUserProfile` |
| Server.Backend.SaveProfile | controllers/userController.js:131-143 | behaves as `UserController.ProfileSaved` |
| Server.Backend.LogoutUser | controllers/userController.js:192-213 | behaves as `UserController.Logout` |
| Server.Backend.DeleteUserAccount | controllers/userController.js:216-236 | behaves as `UserController.DeleteUserAccount`: the post deletion, the existence check, then the removal |
| Server.Backend.RemoveAccount | controllers/userController.js:226-231 | behaves as `UserController.RemoveAccount` |
| Server.Backend.FindByIdAndDelete | models/user.model.js:79-100 | behaves as `Store.FindByIdAndDelete`: the hook, then the removal of the account |
| Server.Backend.DeletePostsOfOwner | models/user.model.js:92 | behaves as `Store.DeletePostsOf` |
| Server.Backend.CreatePost | controllers/postController.js:44-82 | behaves as `PostController.CreatePost` |
| Server.Backend.SavePost | controllers/postController.js:70-75 | behaves as `Store.InsertPost` followed by the `$push` onto the owner's `posts` (`Store.UpdateUser`) |
| Server.Backend.UpdatePostAs | controllers/postController.js:85-101 | behaves as `PostController.UpdatePostWith` |
| Server.Backend.DeletePostAs | controllers/postController.js:104-118 | behaves as `PostController.DeletePostWith` |
| Server.Backend.UpdatePost | controllers/postController.js:85-101 | behaves as `PostController.UpdatePost` |
| Server.Backend.DeletePost | controllers/postController.js:104-118 | behaves as `PostController.DeletePost` |
| Server.Backend.UpdatePostCorrected | controllers/postController.js:85-101 | behaves as `PostController.UpdatePostCorrected` |
| Server.Backend.DeletePostCorrected | controllers/postController.js:104-118 | behaves as `PostController.DeletePostCorrected` |
| Server.Backend.LikePost | controllers/postController.js:120-169 | behaves as `PostController.LikePost` |
| Server.Backend.SaveLike | controllers/postController.js:138-164 | behaves as `PostController.Liked`: the in-memory toggle on the loaded post, then the save |
| Server.Backend.GetAllLikes | controllers/postController.js:171-197 | behaves as `PostController.GetAllLikes`, with no write |
| Server.Backend.Register | controllers/authController.js:11-62 | behaves as `AuthController.Register` |
| Server.Backend.CreateAccount | controllers/authController.js:34-57 | behaves as `AuthController.CreateAccount`: `User.create` with the pre-save hook, then the two token methods on the saved document |
| Server.Backend.Login | controllers/authController.js:64-123 | behaves as `AuthController.Login` |
| Server.Backend.IssueCode | controllers/authController.js:93-118 | behaves as `AuthController.LoginSucceeded` |
| Server.Backend.VerifyOtp | controllers/authController.js:126-162 | behaves as `AuthController.VerifyOtp` |
| Server.Backend.StoreRefreshToken | controllers/authController.js:143-157 | behaves as `AuthController.OtpVerified` |
| Server.Backend.AddCommentAs | routes/commentRoutes.js:8-26 | behaves as `CommentRoutes.AddCommentAs` |
| Server.Backend.AddComment | routes/commentRoutes.js:8-26 | behaves as `CommentRoutes.AddComment` |
| Server.Backend.AddCommentCorrected | routes/commentRoutes.js:8-26 | behaves as `CommentRoutes.AddCommentCorrected` |
| Server.Backend.FetchComments | routes/commentRoutes.js:29-39 | behaves as `CommentRoutes.FetchComments`, with no write |
| Server.Backend.DeleteCommentAs | routes/commentRoutes.js:42-60 | behaves as `CommentRoutes.DeleteCommentAs` |
| Server.Backend.DeleteComment | routes/commentRoutes.js:42-60 | behaves as `CommentRoutes.DeleteComment` |
| Server.Backend.DeleteCommentCorrected | routes/commentRoutes.js:42-60 | behaves as `CommentRoutes.DeleteCommentCorrected` |
| Server.Backend.LikeComment | routes/commentRoutes.js:63-87 | behaves as `CommentRoutes.LikeComment`, with the requester `req.user.id` |
| Server.Backend.LikeCommentAs | routes/commentRoutes.js:63-87 | behaves as `CommentRoutes.LikeCommentAs` |
| Server.Backend.LikeCommentCorrected | routes/commentRoutes.js:63-87 | behaves as `CommentRoutes.LikeCommentCorrected` |

A `Server.Backend` row "behaves as F" means the method ensures that its new state and its
response are those of the transition function F applied to the old state. Every handler
method (one that requires `Valid()`) also ensures `Valid()` afterwards: the store invariant
plus the codec and hash assumptions. The lemmas about F then carry over to the method.

## Left out

- Sockets, mail sending, Cloudinary/multer uploads and the base64 conversion of the file are I/O. The uploaded file is a string parameter.
- Rate limiting, concurrency and races between concurrent saves are out of scope: handlers run one at a time.
- Redis expiry by the clock is not modelled: the expiry is recorded as a number, and a cache read or write failure is not modelled.
- `console` logging and the catch blocks that only log are left out.
- `populate` field projection is reduced to the fields the answers carry, and the comment fetch drops its `populate("userId", "username avatar")` altogether: its listing carries the stored author ids. `lean()` and Mongoose casting of ids are left out: ids are strings, and `findById` with an undefined id matches nothing.
- JWT_SECRET and JWT_REFRESH_SECRET are two distinct constructors of `Jwt.Secret`: the model assumes both are set and that they differ. An unset secret, with which `jwt.sign` throws and `jwt.verify` fails, is not modelled; the expiry variables, unset, are. `AuthGate.GateNeverRefreshes` rests on the two secrets differing.
- bcrypt is a plain hash function: the salt and the 72-byte truncation are not modelled.
- `Math.random()` is the parameter `rnd` in [0, 1).
- Request bodies arrive already cast: a value Mongoose cannot cast to the schema type (and the `CastError` it raises) is not modelled, nor are `$`-operators sent inside `req.body` to `updatePost`.
- The `error` object that `likePost` adds to its 500 answer is not modelled; the answer carries only the message.
- The express-validator chains (routes/authRoutes.js:18-35) are reduced to their outcome, the input list `errors`. Their sanitizers are not modelled: `trim()` of the registration username (line 20) and `normalizeEmail()` of the registration and login email (lines 25 and 33), which lowercases the address and, for Gmail, drops dots and a `+` suffix. The `username` and `email` parameters of `Register` and `Login` stand for the values after those sanitizers.
- verify-otp has no validator chain (routes/authRoutes.js:44), so its email arrives as sent. An account registered as "Alice@Example.com" is stored as "alice@example.com", and verify-otp with the address as typed answers 400 "User not found". The model shows this only when the two spellings are passed as the two inputs.
- `xss-clean` on the auth and user routes (routes/authRoutes.js:38, routes/userRoutes.js:79) HTML-escapes the strings of the body before the handlers see them: the model's string inputs are the escaped values. `mongoSanitize.sanitize` leaves a string unchanged and is the identity.
- The user schema's `{ timestamps: true }` (models/user.model.js:26) is not modelled: accounts carry no `createdAt` or `updatedAt`, and the answers that echo an account leave them out.
- `role` is not an account field, so the signed `{ userId, role }` payloads carry no `role` claim.
- getAllPosts and getPost in controllers/postController.js are outside the modelled handlers.
- The refresh-token blacklist is only written: no handler in the modelled files reads it.
- The `Post.deleteMany({ userId })` of `deleteUserAccount` depends on Mongoose's `strictQuery` setting, which lives outside the modelled files. It is the flag `Config.strictQuery`: set, the filter matches every post; unset, it matches none.

## Findings

| source | as written | input that shows it | evidently intended | confidence | as-written member | corrected member |
|---|---|---|---|---|---|---|
| controllers/userController.js:12 | the acting id is `req.user.id`, a claim the gate never sets | any authenticated follow request: 404 for a missing target, 500 otherwise | use `req.user.userId` | high, not executed | UserController.FollowAsWired | UserController.FollowCorrectedWorks |
| controllers/postController.js:91 | `post.userId.toString()`, but the owner path is `user` | an update or delete of any existing post: 500 | compare `post.user` with `req.user.userId` | high, not executed | PostController.UpdateDeleteAsWritten | PostController.UpdateDeleteCorrected |
| routes/commentRoutes.js:11 | the author is `req.user.id`, which is undefined | any non-blank comment: validation fails on `userId`, 500 | use `req.user.userId` | high, not executed | CommentRoutes.AddAsWritten | CommentRoutes.AddCorrectedStores |
| routes/commentRoutes.js:48 | `comment.userId.toString() !== req.user.id` is always true | the author deleting their own comment: 403 | compare with `req.user.userId` | high, not executed | CommentRoutes.DeleteAsWritten | CommentRoutes.DeleteCorrectedByAuthor |
| middlewares/authMiddleware.js:25 | the refresh cookie is verified with JWT_SECRET, while stored refresh tokens are signed with JWT_REFRESH_SECRET | when the two secrets differ, an expired access token with the stored refresh token as cookie: 403, never a refresh | verify the cookie with JWT_REFRESH_SECRET | high, not executed | AuthGate.GateNeverRefreshes | AuthGate.CorrectedGateRefreshes |
| routes/commentRoutes.js:66 | the like requester is `req.user.id`, which is undefined | any like of a comment: the first stores a `null` entry, and each later like request on it is a 500 | use `req.user.userId` | medium, not executed | CommentRoutes.LikeAsWritten | CommentRoutes.LikeCommentTwiceRestores |
