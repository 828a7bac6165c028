/** What a handler sends back: a status, a JSON body, and the cookies it sets or clears.
    The bodies are the JSON objects the handlers build, one variant per shape. */
module Http {
  import opened Common
  import opened PostModel
  import opened CommentModel
  import opened UserModel
  import opened Cache

  datatype Cookie = SetCookie(name: string, value: string) | ClearCookie(name: string)

  datatype Body =
    | Message(message: string)                                         // { message }
    | Outcome(success: bool, message: string)                          // { success, message }
    | ErrorText(error: string)                                         // { error }
    | Errors(errors: seq<string>)                                      // { success: false, errors }
    | Json(snapshot: Snapshot)                                         // a cached or freshly built JSON value
    | PostsOf(snapshot: Snapshot)                                      // { success: true, posts }
    | ProfileUpdated(user: UserDoc)                                    // { success: true, user, message }
    | PostJson(post: PostDoc)                                          // a post document
    | LikeToggled(message: string, post: PostDoc, likers: seq<UserSummary>) // { message, post } with populated likes
    | Likes(likesCount: nat, likes: seq<UserSummary>)                  // { success: true, likesCount, likes }
    | Registered(id: UserId, username: string, email: string, accessToken: string)
    | LoggedIn(accessToken: string, user: UserDoc)                     // { message, accessToken, user }
    | OtpAccepted(accessToken: string)                                 // { accessToken, message }
    | CommentJson(comment: CommentDoc)
    | CommentList(comments: seq<CommentDoc>)

  datatype Response = Response(status: nat, body: Body, cookies: seq<Cookie>)

  /** A response that touches no cookie. */
  function Reply(status: nat, body: Body): Response {
    Response(status, body, [])
  }
}
