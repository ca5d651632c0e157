/** What a request handler leaves behind: a status, a JSON body and an effect
    on the `token` cookie — or no response at all. */
module Http {
  import opened Crypto
  import opened UserModel

  /** The handler's effect on the `token` cookie. */
  datatype CookieEffect = Unchanged | SetToken(token: Token) | ClearToken

  /** The JSON bodies the handlers send. No variant carries a password digest. */
  datatype Body =
    | Message(text: string)
    | UserBody(user: PublicUser)
    | ProfileBody(user: PublicUser, followerCount: nat, followingCount: nat, isFollowing: bool)

  datatype Response = Response(status: nat, body: Body, cookie: CookieEffect)

  /** How a handler ends: it answers; it returns without ever answering; or it
      throws a TypeError by reading a property of a lookup that found nothing. */
  datatype Outcome = Reply(response: Response) | NoReply | NullDereference
}
