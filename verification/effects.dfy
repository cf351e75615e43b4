/** What a command handler sees of the world and what it asks of it.  The
    chat platform's gateway is an oracle: every request a handler makes
    (ban, kick, fetch history, ...) is answered by a given `Outcome`, and a
    handler is a pure function from the database, the invocation and the
    gateway's answers to the new database, the messages it posts and the
    requests it made. */
module Effects {
  import opened Wrappers
  import opened Text
  import opened Store

  /** How an awaited gateway request ended: done, or the exception's
      message. */
  datatype Outcome = Ok | Err(message: string)

  /** A message of a channel's history, with its creation time in seconds. */
  datatype ChannelMessage = ChannelMessage(id: Id, timestamp: int)

  datatype Fetch = Fetched(messages: seq<ChannelMessage>) | FetchFailed(message: string)

  /** The gateway's answers, one per kind of request a single command can
      make: the moderation action itself, the history fetch, the bulk
      delete, and the deletion of the bot's own confirmation message. */
  datatype Gateway = Gateway(action: Outcome, fetch: Fetch, delete: Outcome, cleanup: Outcome)

  datatype Request =
    | BanRequest(guild: Id, user: Id, reason: string)
    | KickRequest(guild: Id, user: Id, reason: string)
    | UnbanRequest(guild: Id, user: Id)
    | TimeoutRequest(guild: Id, user: Id, minutes: int)
    | FetchRequest(limit: int)
    | DeleteRequest(ids: seq<Id>)
    | DeleteConfirmation

  /** A message the bot posts; ephemeral ones are shown to the invoker
      only. */
  datatype Post = Post(text: string, ephemeral: bool)

  datatype Response = Response(db: Db, posts: seq<Post>, requests: seq<Request>)

  /** Who issued a command and where: the invoker, the guild of the
      channel (none in a direct message), whether the channel is a text
      channel, the guild's cached members, and the current Unix time in
      seconds. */
  datatype Context = Context(author: Id, guild: Option<Id>, textChannel: bool, members: set<Id>, now: int)

  /** A resolved user option of a slash command, and whether the platform
      resolved it as a member of the guild. */
  datatype UserArg = UserArg(id: Id, isGuildMember: bool)

  /** The options of a slash command, by the type its schema declares. */
  datatype Options = Options(strings: map<string, string>, integers: map<string, int>, users: map<string, UserArg>)

  /** A slash handler either responds or throws before it changes
      anything (a failed cast or numeric conversion). */
  datatype SlashResult = Replied(response: Response) | Threw

  /** `Options.FirstOrDefault(o => o.Name == name)?.Value`, by type. */
  function StringOption(o: Options, name: string): Option<string> {
    if name in o.strings then Some(o.strings[name]) else None
  }

  function IntegerOption(o: Options, name: string): Option<int> {
    if name in o.integers then Some(o.integers[name]) else None
  }

  function UserOption(o: Options, name: string): Option<UserArg> {
    if name in o.users then Some(o.users[name]) else None
  }

  /** No reply, no request, no change. */
  function Nothing(db: Db): Response {
    Response(db, [], [])
  }

  /** One reply and nothing else. */
  function Say(db: Db, text: string, ephemeral: bool): Response {
    Response(db, [Post(text, ephemeral)], [])
  }

  /** A user mention as the platform renders it. */
  function Mention(id: Id): (s: string)
    ensures StartsWith(s, "<@") && EndsWith(s, ">")
  {
    "<@" + NatToString(id) + ">"
  }
}
