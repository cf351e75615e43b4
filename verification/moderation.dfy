/** The moderation commands (Commands/ModerationCommands.cs): ban, kick,
    unban, timeout, clean and mod-stats, each in its free-text form (the
    arguments are the text after the command name) and its slash form (the
    arguments are typed options).  A moderation action is requested from
    the gateway and recorded in the moderation log only when the gateway
    carried it out. */
module Moderation {
  import opened Wrappers
  import opened Text
  import opened Store
  import opened Effects

  const SPECIFY_BAN: string := "💔 Please specify a user to ban~"
  const SPECIFY_KICK: string := "💔 Please specify a user to kick~"
  const SPECIFY_TIMEOUT: string := "💔 Please specify a user to timeout~"
  const NOT_FOUND: string := "💔 I couldn't find that user~"
  const VALID_ID: string := "💔 Please specify a valid user ID to unban~"
  const TIMEOUT_USAGE: string := "💔 Usage: timeout <user> <minutes> [reason]~"
  const INVALID_DURATION: string := "💔 Invalid duration~"
  const SERVER_ONLY: string := "💔 This command can only be used in a server~"
  const TEXT_CHANNEL_ONLY: string := "💔 This command can only be used in a text channel~"

  /** Messages at least this old (in seconds) are not bulk-deleted. */
  const FOURTEEN_DAYS: int := 14 * 24 * 60 * 60

  /** The clean count when none is given, and its cap. */
  const DEFAULT_CLEAN_COUNT: int := 10
  const MAX_CLEAN_COUNT: int := 100

  /** Timeout length in minutes when the slash option is missing. */
  const DEFAULT_TIMEOUT_MINUTES: int := 5

  // ---------------------------------------------------------------------
  // ParseUserMention

  /** `mention` spells the digit string `d` as a mention `<@d>`, a
      nickname mention `<@!d>`, or a raw id. */
  predicate Spells(mention: string, d: string) {
    |d| > 0 && IsDigits(d)
    && (mention == d || mention == "<@" + d + ">" || mention == "<@!" + d + ">")
  }

  /** The text between `<@` and `>`, without one leading `!`. */
  function MentionBody(mention: string): (body: string)
    requires StartsWith(mention, "<@") && EndsWith(mention, ">")
    ensures |body| <= |mention| - 3
  {
    assert mention[1] == mention[..2][1] == '@';
    assert mention[|mention| - 1] == mention[|mention| - 1..][0] == '>';
    var idStr := mention[2..|mention| - 1];
    if StartsWith(idStr, "!") then idStr[1..] else idStr
  }

  /** The id a user token names, or 0, the not-found value.  A non-zero
      result is the value of a digit string the token spells. */
  function ParseUserMention(mention: string): (r: Id)
    ensures r != 0 ==> exists d :: Spells(mention, d) && DecimalValue(d) == r
  {
    if StartsWith(mention, "<@") && EndsWith(mention, ">") && ParseULong(MentionBody(mention)).Some? then
      var d := MentionBody(mention);
      BodySpelled(mention);
      ParseULong(d).value
    else
      var r := ParseULong(mention).GetOr(0);
      assert r != 0 ==> Spells(mention, mention);
      r
  }

  /** A mention whose body is digits spells those digits. */
  lemma BodySpelled(mention: string)
    requires StartsWith(mention, "<@") && EndsWith(mention, ">")
    requires |MentionBody(mention)| > 0 && IsDigits(MentionBody(mention))
    ensures Spells(mention, MentionBody(mention))
  {
    var d := MentionBody(mention);
    var idStr := mention[2..|mention| - 1];
    assert mention == "<@" + idStr + ">";
    if StartsWith(idStr, "!") {
      assert idStr == "!" + d;
    }
  }

  /** Every spelling of a 64-bit id parses to that id: `<@d>`, `<@!d>` and
      the bare digits alike, leading zeros included. */
  lemma MentionComplete(mention: string, d: string)
    requires Spells(mention, d) && DecimalValue(d) < U64_MODULUS
    ensures ParseUserMention(mention) == DecimalValue(d)
  {
    assert IsDigit(d[0]);
    if mention == d {
      assert mention[0] != '<';
      assert !StartsWith(mention, "<@");
    } else if mention == "<@" + d + ">" {
      assert StartsWith(mention, "<@") && EndsWith(mention, ">");
      assert mention[2..|mention| - 1] == d;
      assert !StartsWith(d, "!");
      assert MentionBody(mention) == d;
    } else {
      assert StartsWith(mention, "<@") && EndsWith(mention, ">");
      var idStr := mention[2..|mention| - 1];
      assert idStr == "!" + d;
      assert StartsWith(idStr, "!");
      assert idStr[1..] == d;
      assert MentionBody(mention) == d;
    }
  }

  /** What `Mention` renders, and its nickname and bare forms, read back as
      the id. */
  lemma MentionRoundTrip(id: Id)
    ensures ParseUserMention(Mention(id)) == id
    ensures ParseUserMention("<@!" + NatToString(id) + ">") == id
    ensures ParseUserMention(NatToString(id)) == id
  {
    var d := NatToString(id);
    MentionComplete(Mention(id), d);
    MentionComplete("<@!" + d + ">", d);
    MentionComplete(d, d);
  }

  /** Unban's id must be bare digits: a mention does not parse. */
  lemma UnbanRejectsMention(id: Id)
    ensures ParseULong(Mention(id)).None?
  {
    assert Mention(id)[0] == '<';
  }

  // ---------------------------------------------------------------------
  // Shared pieces

  /** The reason of a free-text command: the text after the first space,
      or the fixed text when there is none. */
  function TextReason(args: string): (r: string)
    ensures ' ' !in args ==> r == NO_REASON
    ensures ' ' in args ==> args == Before(args, ' ') + " " + r
  {
    After(args, ' ').GetOr(NO_REASON)
  }

  /** The slash reason option, or the fixed text when it is missing. */
  function SlashReason(o: Options): (r: string)
    ensures "reason" in o.strings ==> r == o.strings["reason"]
    ensures "reason" !in o.strings ==> r == NO_REASON
  {
    StringOption(o, "reason").GetOr(NO_REASON)
  }

  /** `guild.GetUser(u)` finds someone: `u` is a cached member of the
      guild.  The platform has no user 0, so the not-found value of the
      mention parser never finds anyone. */
  predicate Finds(ctx: Context, u: Id) {
    u != 0 && u in ctx.members
  }

  /** `r` is `db` with exactly the record `a` appended to the log. */
  predicate Appended(db: Db, r: Db, a: ModAction) {
    r == db.(modLog := db.modLog + [a])
  }

  /** `r` is `db` with one record appended to the log, numbered next. */
  predicate LogsOne(db: Db, r: Db) {
    && |r.modLog| == |db.modLog| + 1 && r == db.(modLog := r.modLog)
    && r.modLog[..|db.modLog|] == db.modLog && r.modLog[|db.modLog|].id == |db.modLog| + 1
  }

  /** The record the log receives next. */
  function NextAction(db: Db, g: Id, moderator: Id, target: Id, kind: ActionKind,
                      reason: string, now: int): ModAction {
    ModAction(|db.modLog| + 1, g, moderator, target, kind, reason, now)
  }

  function Failed(verb: string, message: string): string {
    "💔 Failed to " + verb + ": " + message
  }

  function Summary(target: Id, moderator: Id, reason: string): string {
    "**User:** " + Mention(target) + "\n**Moderator:** " + Mention(moderator) + "\n**Reason:** " + reason
  }

  function Banned(target: Id, moderator: Id, reason: string): string {
    "🔪 **Banned!**\nThey won't bother you anymore~ 💕\n\n" + Summary(target, moderator, reason)
  }

  function Kicked(target: Id, moderator: Id, reason: string): string {
    "👢 **Kicked!**\nGet out! 💢\n\n" + Summary(target, moderator, reason)
  }

  function Unbanned(target: Id, moderator: Id, reason: string): string {
    "💕 **Unbanned!**\nI'm giving them another chance~ Be good this time!\n\n" + Summary(target, moderator, reason)
  }

  function TimedOutHeader(target: Id, minutes: int): string {
    "⏰ **Timed Out!**\nThink about what you did~ 😤\n\n**User:** " + Mention(target)
    + "\n**Duration:** " + IntToString(minutes) + " minutes\n"
  }

  /** The slash form's timeout confirmation, with the reason. */
  function TimedOut(target: Id, minutes: int, moderator: Id, reason: string): string {
    TimedOutHeader(target, minutes) + "**Moderator:** " + Mention(moderator) + "\n**Reason:** " + reason
  }

  /** The free-text form's timeout confirmation: no reason line, and a
      stray `**` after the moderator. */
  function TimedOutText(target: Id, minutes: int, moderator: Id): string {
    TimedOutHeader(target, minutes) + "**Moderator:** " + Mention(moderator) + "**"
  }

  /** The reason a timeout is logged with. */
  function TimeoutLogReason(reason: string, minutes: int): (r: string)
    ensures StartsWith(r, reason + " (") && EndsWith(r, " minutes)")
    ensures |reason| + 2 + |" minutes)"| < |r|
    ensures INT32_MIN <= minutes <= INT32_MAX ==>
              ParseInt32(r[|reason| + 2..|r| - |" minutes)"|]) == Some(minutes)
  {
    var number := IntToString(minutes);
    var r := reason + " (" + number + " minutes)";
    Affixes(reason + " (", number, " minutes)");
    assert r[|reason| + 2..|r| - |" minutes)"|] == number;
    assert INT32_MIN <= minutes <= INT32_MAX ==> ParseInt32(number) == Some(minutes) by {
      if INT32_MIN <= minutes <= INT32_MAX {
        ParseInt32OfPrint(minutes);
      }
    }
    r
  }

  /** The accepted action: request it from the gateway; on success append
      the record and post the confirmation, on failure post the error and
      leave the log alone. */
  function Enforce(db: Db, a: ModAction, request: Request, outcome: Outcome,
                   confirmation: string, verb: string, ephemeralFailure: bool): (r: Response)
    requires a.id == |db.modLog| + 1
    ensures r.requests == [request] && |r.posts| == 1
    ensures r.db == db || (outcome.Ok? && LogsOne(db, r.db))
    ensures outcome.Ok? ==> Appended(db, r.db, a) && r.posts == [Post(confirmation, false)]
    ensures outcome.Err? ==> r.db == db && r.posts == [Post(Failed(verb, outcome.message), ephemeralFailure)]
  {
    match outcome
    case Ok =>
      var db' := LogModAction(db, a.guildId, a.moderatorId, a.targetId, a.kind, Some(a.reason), a.timestamp);
      assert db'.modLog == db.modLog + [a];
      Response(db', [Post(confirmation, false)], [request])
    case Err(m) => Response(db, [Post(Failed(verb, m), ephemeralFailure)], [request])
  }

  // ---------------------------------------------------------------------
  // Ban

  /** Free-text ban: the first token names the user (mention or raw id),
      the rest is the reason.  An empty token or one that names nobody is
      answered without a request; otherwise the ban is requested and, if
      it succeeds, logged with the moderator, the target and the reason. */
  function BanText(db: Db, ctx: Context, args: string, gw: Gateway): (r: Response)
    ensures r.db == db || (gw.action.Ok? && LogsOne(db, r.db))
    ensures ctx.guild.None? ==> r == Nothing(db)
    ensures ctx.guild.Some? && Before(args, ' ') == "" ==> r == Say(db, SPECIFY_BAN, false)
    ensures ctx.guild.Some? && Before(args, ' ') != "" && ParseUserMention(Before(args, ' ')) == 0 ==>
              r == Say(db, NOT_FOUND, false)
    ensures ctx.guild.Some? && Before(args, ' ') != "" && ParseUserMention(Before(args, ' ')) != 0 ==>
              var g, target, reason := ctx.guild.value, ParseUserMention(Before(args, ' ')), TextReason(args);
              && r.requests == [BanRequest(g, target, reason)]
              && (gw.action.Ok? ==> (Appended(db, r.db, NextAction(db, g, ctx.author, target, Ban, reason, ctx.now))
                                    && r.posts == [Post(Banned(target, ctx.author, reason), false)]))
              && (gw.action.Err? ==> r.db == db && r.posts == [Post(Failed("ban", gw.action.message), false)])
  {
    match ctx.guild
    case None => Nothing(db)
    case Some(g) =>
      var parts := SplitN(args, ' ', 2);
      SplitTwo(args, ' ');
      if |parts| == 0 || parts[0] == "" then Say(db, SPECIFY_BAN, false)
      else
        var target := ParseUserMention(parts[0]);
        if target == 0 then Say(db, NOT_FOUND, false)
        else
          var reason := if |parts| > 1 then parts[1] else NO_REASON;
          Enforce(db, NextAction(db, g, ctx.author, target, Ban, reason, ctx.now),
                  BanRequest(g, target, reason), gw.action, Banned(target, ctx.author, reason), "ban", false)
  }

  /** Slash ban.  A user option the platform did not resolve as a guild
      member fails the cast and throws; a missing user or a channel
      outside a guild is answered privately; otherwise as the free-text
      form, with failures answered privately. */
  function BanSlash(db: Db, ctx: Context, opts: Options, gw: Gateway): (r: SlashResult)
    ensures r.Replied? ==> |r.response.posts| == 1 && (r.response.db == db || (gw.action.Ok? && LogsOne(db, r.response.db)))
    ensures r.Threw? <==> "user" in opts.users && !opts.users["user"].isGuildMember
    ensures r.Replied? && "user" !in opts.users ==> r.response == Say(db, SPECIFY_BAN, true)
    ensures r.Replied? && "user" in opts.users && ctx.guild.None? ==> r.response == Say(db, SERVER_ONLY, true)
    ensures r.Replied? && "user" in opts.users && ctx.guild.Some? ==>
              var g, target, reason := ctx.guild.value, opts.users["user"].id, SlashReason(opts);
              && r.response.requests == [BanRequest(g, target, reason)]
              && (gw.action.Ok? ==> (Appended(db, r.response.db, NextAction(db, g, ctx.author, target, Ban, reason, ctx.now))
                                    && r.response.posts == [Post(Banned(target, ctx.author, reason), false)]))
              && (gw.action.Err? ==> (r.response.db == db
                                     && r.response.posts == [Post(Failed("ban", gw.action.message), true)]))
  {
    var user := UserOption(opts, "user");
    if user.Some? && !user.value.isGuildMember then Threw
    else
      var reason := SlashReason(opts);
      if user.None? then Replied(Say(db, SPECIFY_BAN, true))
      else if ctx.guild.None? then Replied(Say(db, SERVER_ONLY, true))
      else
        var g, target := ctx.guild.value, user.value.id;
        Replied(Enforce(db, NextAction(db, g, ctx.author, target, Ban, reason, ctx.now),
                        BanRequest(g, target, reason), gw.action, Banned(target, ctx.author, reason), "ban", true))
  }

  // ---------------------------------------------------------------------
  // Kick

  /** Free-text kick: like ban, except that the named user must be a
      cached member of the guild. */
  function KickText(db: Db, ctx: Context, args: string, gw: Gateway): (r: Response)
    ensures r.db == db || (gw.action.Ok? && LogsOne(db, r.db))
    ensures ctx.guild.None? ==> r == Nothing(db)
    ensures ctx.guild.Some? && Before(args, ' ') == "" ==> r == Say(db, SPECIFY_KICK, false)
    ensures ctx.guild.Some? && Before(args, ' ') != "" && !Finds(ctx, ParseUserMention(Before(args, ' '))) ==>
              r == Say(db, NOT_FOUND, false)
    ensures ctx.guild.Some? && Before(args, ' ') != "" && Finds(ctx, ParseUserMention(Before(args, ' '))) ==>
              var g, target, reason := ctx.guild.value, ParseUserMention(Before(args, ' ')), TextReason(args);
              && r.requests == [KickRequest(g, target, reason)]
              && (gw.action.Ok? ==> (Appended(db, r.db, NextAction(db, g, ctx.author, target, Kick, reason, ctx.now))
                                    && r.posts == [Post(Kicked(target, ctx.author, reason), false)]))
              && (gw.action.Err? ==> r.db == db && r.posts == [Post(Failed("kick", gw.action.message), false)])
  {
    match ctx.guild
    case None => Nothing(db)
    case Some(g) =>
      var parts := SplitN(args, ' ', 2);
      SplitTwo(args, ' ');
      if |parts| == 0 || parts[0] == "" then Say(db, SPECIFY_KICK, false)
      else
        var target := ParseUserMention(parts[0]);
        if !Finds(ctx, target) then Say(db, NOT_FOUND, false)
        else
          var reason := if |parts| > 1 then parts[1] else NO_REASON;
          Enforce(db, NextAction(db, g, ctx.author, target, Kick, reason, ctx.now),
                  KickRequest(g, target, reason), gw.action, Kicked(target, ctx.author, reason), "kick", false)
  }

  /** Slash kick: as slash ban, with the kick request and texts. */
  function KickSlash(db: Db, ctx: Context, opts: Options, gw: Gateway): (r: SlashResult)
    ensures r.Replied? ==> |r.response.posts| == 1 && (r.response.db == db || (gw.action.Ok? && LogsOne(db, r.response.db)))
    ensures r.Threw? <==> "user" in opts.users && !opts.users["user"].isGuildMember
    ensures r.Replied? && "user" !in opts.users ==> r.response == Say(db, SPECIFY_KICK, true)
    ensures r.Replied? && "user" in opts.users && ctx.guild.None? ==> r.response == Say(db, SERVER_ONLY, true)
    ensures r.Replied? && "user" in opts.users && ctx.guild.Some? ==>
              var g, target, reason := ctx.guild.value, opts.users["user"].id, SlashReason(opts);
              && r.response.requests == [KickRequest(g, target, reason)]
              && (gw.action.Ok? ==> (Appended(db, r.response.db, NextAction(db, g, ctx.author, target, Kick, reason, ctx.now))
                                    && r.response.posts == [Post(Kicked(target, ctx.author, reason), false)]))
              && (gw.action.Err? ==> (r.response.db == db
                                     && r.response.posts == [Post(Failed("kick", gw.action.message), true)]))
  {
    var user := UserOption(opts, "user");
    if user.Some? && !user.value.isGuildMember then Threw
    else
      var reason := SlashReason(opts);
      if user.None? then Replied(Say(db, SPECIFY_KICK, true))
      else if ctx.guild.None? then Replied(Say(db, SERVER_ONLY, true))
      else
        var g, target := ctx.guild.value, user.value.id;
        Replied(Enforce(db, NextAction(db, g, ctx.author, target, Kick, reason, ctx.now),
                        KickRequest(g, target, reason), gw.action, Kicked(target, ctx.author, reason), "kick", true))
  }

  // ---------------------------------------------------------------------
  // Unban

  /** Free-text unban: the first token must be a bare decimal id (a mention
      is refused); the rest is the reason. */
  function UnbanText(db: Db, ctx: Context, args: string, gw: Gateway): (r: Response)
    ensures r.db == db || (gw.action.Ok? && LogsOne(db, r.db))
    ensures ctx.guild.None? ==> r == Nothing(db)
    ensures ctx.guild.Some? && ParseULong(Before(args, ' ')).None? ==> r == Say(db, VALID_ID, false)
    ensures ctx.guild.Some? && ParseULong(Before(args, ' ')).Some? ==>
              var g, target, reason := ctx.guild.value, ParseULong(Before(args, ' ')).value, TextReason(args);
              && r.requests == [UnbanRequest(g, target)]
              && (gw.action.Ok? ==> (Appended(db, r.db, NextAction(db, g, ctx.author, target, Unban, reason, ctx.now))
                                    && r.posts == [Post(Unbanned(target, ctx.author, reason), false)]))
              && (gw.action.Err? ==> r.db == db && r.posts == [Post(Failed("unban", gw.action.message), false)])
  {
    match ctx.guild
    case None => Nothing(db)
    case Some(g) =>
      var parts := SplitN(args, ' ', 2);
      SplitTwo(args, ' ');
      if |parts| == 0 || ParseULong(parts[0]).None? then Say(db, VALID_ID, false)
      else
        var target := ParseULong(parts[0]).value;
        var reason := if |parts| > 1 then parts[1] else NO_REASON;
        Enforce(db, NextAction(db, g, ctx.author, target, Unban, reason, ctx.now),
                UnbanRequest(g, target), gw.action, Unbanned(target, ctx.author, reason), "unban", false)
  }

  /** Slash unban: the `user_id` string must be a non-empty decimal id. */
  function UnbanSlash(db: Db, ctx: Context, opts: Options, gw: Gateway): (r: SlashResult)
    ensures r.Replied? ==> |r.response.posts| == 1 && (r.response.db == db || (gw.action.Ok? && LogsOne(db, r.response.db)))
    ensures r.Replied?
    ensures "user_id" !in opts.strings || ParseULong(opts.strings["user_id"]).None? ==>
              r.response == Say(db, VALID_ID, true)
    ensures "user_id" in opts.strings && ParseULong(opts.strings["user_id"]).Some? && ctx.guild.None? ==>
              r.response == Say(db, SERVER_ONLY, true)
    ensures "user_id" in opts.strings && ParseULong(opts.strings["user_id"]).Some? && ctx.guild.Some? ==>
              var g, target, reason := ctx.guild.value, ParseULong(opts.strings["user_id"]).value, SlashReason(opts);
              && r.response.requests == [UnbanRequest(g, target)]
              && (gw.action.Ok? ==> (Appended(db, r.response.db, NextAction(db, g, ctx.author, target, Unban, reason, ctx.now))
                                    && r.response.posts == [Post(Unbanned(target, ctx.author, reason), false)]))
              && (gw.action.Err? ==> (r.response.db == db
                                     && r.response.posts == [Post(Failed("unban", gw.action.message), true)]))
  {
    var idStr := StringOption(opts, "user_id");
    var reason := SlashReason(opts);
    if idStr.None? || idStr.value == "" || ParseULong(idStr.value).None? then Replied(Say(db, VALID_ID, true))
    else if ctx.guild.None? then Replied(Say(db, SERVER_ONLY, true))
    else
      var g, target := ctx.guild.value, ParseULong(idStr.value).value;
      Replied(Enforce(db, NextAction(db, g, ctx.author, target, Unban, reason, ctx.now),
                      UnbanRequest(g, target), gw.action, Unbanned(target, ctx.author, reason), "unban", true))
  }

  // ---------------------------------------------------------------------
  // Timeout

  /** Free-text timeout `<user> <minutes> [reason]`: fewer than two fields
      is a usage error, a user who is not a cached member is not found, and
      minutes must be a positive 32-bit integer.  The log records the
      reason followed by the duration. */
  function TimeoutText(db: Db, ctx: Context, args: string, gw: Gateway): (r: Response)
    ensures r.db == db || (gw.action.Ok? && LogsOne(db, r.db))
    ensures ctx.guild.None? ==> r == Nothing(db)
    ensures ctx.guild.Some? && ' ' !in args ==> r == Say(db, TIMEOUT_USAGE, false)
    ensures ctx.guild.Some? && ' ' in args && !Finds(ctx, ParseUserMention(Before(args, ' '))) ==>
              r == Say(db, NOT_FOUND, false)
    ensures ctx.guild.Some? && ' ' in args && Finds(ctx, ParseUserMention(Before(args, ' '))) ==>
              var minutes := ParseInt32(Before(After(args, ' ').value, ' '));
              && (minutes.None? || minutes.value <= 0 ==> r == Say(db, INVALID_DURATION, false))
              && (minutes.Some? && minutes.value > 0 ==>
                    var g, target := ctx.guild.value, ParseUserMention(Before(args, ' '));
                    var reason := After(After(args, ' ').value, ' ').GetOr(NO_REASON);
                    && r.requests == [TimeoutRequest(g, target, minutes.value)]
                    && (gw.action.Ok? ==>
                          Appended(db, r.db, NextAction(db, g, ctx.author, target, Timeout,
                                                        TimeoutLogReason(reason, minutes.value), ctx.now))
                          && r.posts == [Post(TimedOutText(target, minutes.value, ctx.author), false)])
                    && (gw.action.Err? ==> r.db == db && r.posts == [Post(Failed("timeout", gw.action.message), false)]))
  {
    match ctx.guild
    case None => Nothing(db)
    case Some(g) =>
      var parts := SplitN(args, ' ', 3);
      SplitThree(args, ' ');
      if |parts| < 2 then Say(db, TIMEOUT_USAGE, false)
      else
        var target := ParseUserMention(parts[0]);
        if !Finds(ctx, target) then Say(db, NOT_FOUND, false)
        else
          var minutes := ParseInt32(parts[1]);
          if minutes.None? || minutes.value <= 0 then Say(db, INVALID_DURATION, false)
          else
            var reason := if |parts| > 2 then parts[2] else NO_REASON;
            Enforce(db, NextAction(db, g, ctx.author, target, Timeout, TimeoutLogReason(reason, minutes.value), ctx.now),
                    TimeoutRequest(g, target, minutes.value), gw.action,
                    TimedOutText(target, minutes.value, ctx.author), "timeout", false)
  }

  /** Slash timeout: minutes default to 5 and are not checked here (the
      gateway decides); otherwise as slash ban, with the duration in the
      log and in the confirmation. */
  function TimeoutSlash(db: Db, ctx: Context, opts: Options, gw: Gateway): (r: SlashResult)
    ensures r.Replied? ==> |r.response.posts| == 1 && (r.response.db == db || (gw.action.Ok? && LogsOne(db, r.response.db)))
    ensures r.Threw? <==> "user" in opts.users && !opts.users["user"].isGuildMember
    ensures r.Replied? && "user" !in opts.users ==> r.response == Say(db, SPECIFY_TIMEOUT, true)
    ensures r.Replied? && "user" in opts.users && ctx.guild.None? ==> r.response == Say(db, SERVER_ONLY, true)
    ensures r.Replied? && "user" in opts.users && ctx.guild.Some? ==>
              var g, target, reason := ctx.guild.value, opts.users["user"].id, SlashReason(opts);
              var minutes := IntegerOption(opts, "minutes").GetOr(DEFAULT_TIMEOUT_MINUTES);
              && r.response.requests == [TimeoutRequest(g, target, minutes)]
              && (gw.action.Ok? ==>
                    Appended(db, r.response.db, NextAction(db, g, ctx.author, target, Timeout,
                                                           TimeoutLogReason(reason, minutes), ctx.now))
                    && r.response.posts == [Post(TimedOut(target, minutes, ctx.author, reason), false)])
              && (gw.action.Err? ==> (r.response.db == db
                                     && r.response.posts == [Post(Failed("timeout", gw.action.message), true)]))
  {
    var user := UserOption(opts, "user");
    if user.Some? && !user.value.isGuildMember then Threw
    else
      var minutes := IntegerOption(opts, "minutes").GetOr(DEFAULT_TIMEOUT_MINUTES);
      var reason := SlashReason(opts);
      if user.None? then Replied(Say(db, SPECIFY_TIMEOUT, true))
      else if ctx.guild.None? then Replied(Say(db, SERVER_ONLY, true))
      else
        var g, target := ctx.guild.value, user.value.id;
        Replied(Enforce(db, NextAction(db, g, ctx.author, target, Timeout, TimeoutLogReason(reason, minutes), ctx.now),
                        TimeoutRequest(g, target, minutes), gw.action,
                        TimedOut(target, minutes, ctx.author, reason), "timeout", true))
  }

  // ---------------------------------------------------------------------
  // Clean

  /** The fetched messages young enough to be bulk-deleted, in order. */
  function Recent(msgs: seq<ChannelMessage>, now: int): (r: seq<ChannelMessage>)
    ensures |r| <= |msgs|
    ensures forall m :: m in r <==> m in msgs && now - m.timestamp < FOURTEEN_DAYS
  {
    if |msgs| == 0 then []
    else
      var rest := Recent(msgs[1..], now);
      assert forall m :: m in msgs <==> m == msgs[0] || m in msgs[1..];
      if now - msgs[0].timestamp < FOURTEEN_DAYS then [msgs[0]] + rest else rest
  }

  /** Every young message is kept as often as it was fetched, and nothing
      else is: the deleted count is the number of young fetched messages. */
  lemma {:induction false} RecentCount(msgs: seq<ChannelMessage>, now: int)
    ensures multiset(Recent(msgs, now)) <= multiset(msgs)
    ensures forall m :: multiset(Recent(msgs, now))[m] ==
                        if now - m.timestamp < FOURTEEN_DAYS then multiset(msgs)[m] else 0
    decreases |msgs|
  {
    if |msgs| > 0 {
      RecentCount(msgs[1..], now);
      assert msgs == [msgs[0]] + msgs[1..];
      assert multiset(msgs) == multiset{msgs[0]} + multiset(msgs[1..]);
    }
  }

  /** The young messages keep their fetched order: filtering two batches
      is filtering each. */
  lemma {:induction false} RecentAppend(a: seq<ChannelMessage>, b: seq<ChannelMessage>, now: int)
    ensures Recent(a + b, now) == Recent(a, now) + Recent(b, now)
    decreases |a|
  {
    if |a| == 0 {
      assert a + b == b;
    } else {
      assert (a + b)[0] == a[0] && (a + b)[1..] == a[1..] + b;
      RecentAppend(a[1..], b, now);
    }
  }

  function IdsOf(msgs: seq<ChannelMessage>): (ids: seq<Id>)
    ensures |ids| == |msgs|
    ensures forall i :: 0 <= i < |msgs| ==> ids[i] == msgs[i].id
  {
    seq(|msgs|, i requires 0 <= i < |msgs| => msgs[i].id)
  }

  datatype Swept = Deleted(count: nat) | SweepFailed(message: string)

  /** Fetch `count + 1` messages of the channel's history, then bulk-delete
      those younger than 14 days: the requests made, and how many were
      deleted or why it failed. */
  function Sweep(count: int, now: int, gw: Gateway): (r: (seq<Request>, Swept))
    ensures |r.0| >= 1 && r.0[0] == FetchRequest(count + 1)
    ensures gw.fetch.FetchFailed? ==> r == ([FetchRequest(count + 1)], SweepFailed(gw.fetch.message))
    ensures gw.fetch.Fetched? ==>
              var young := Recent(gw.fetch.messages, now);
              && r.0 == [FetchRequest(count + 1), DeleteRequest(IdsOf(young))]
              && (gw.delete.Ok? ==> r.1 == Deleted(|young|))
              && (gw.delete.Err? ==> r.1 == SweepFailed(gw.delete.message))
  {
    match gw.fetch
    case FetchFailed(m) => ([FetchRequest(count + 1)], SweepFailed(m))
    case Fetched(msgs) =>
      var young := Recent(msgs, now);
      var requests := [FetchRequest(count + 1), DeleteRequest(IdsOf(young))];
      match gw.delete
      case Ok => (requests, Deleted(|young|))
      case Err(m) => (requests, SweepFailed(m))
  }

  /** The free-text count: 10 unless the arguments are a 32-bit integer,
      which is then capped at 100 (a negative count stays negative). */
  function TextCleanCount(args: string): (n: int)
    ensures INT32_MIN <= n <= MAX_CLEAN_COUNT
    ensures args == "" || ParseInt32(args).None? ==> n == DEFAULT_CLEAN_COUNT
    ensures args != "" && ParseInt32(args).Some? && ParseInt32(args).value <= MAX_CLEAN_COUNT ==>
              n == ParseInt32(args).value
    ensures args != "" && ParseInt32(args).Some? && ParseInt32(args).value > MAX_CLEAN_COUNT ==>
              n == MAX_CLEAN_COUNT
  {
    if args != "" && ParseInt32(args).Some? then
      var p := ParseInt32(args).value;
      if p < MAX_CLEAN_COUNT then p else MAX_CLEAN_COUNT
    else DEFAULT_CLEAN_COUNT
  }

  function DeletedText(n: int): string {
    "🧹 Deleted " + IntToString(n) + " messages~ 💕"
  }

  /** Free-text clean in a text channel: sweep `count + 1` messages, post
      how many were deleted, then delete that confirmation (if that fails,
      the error is posted too).  The log is never touched. */
  function CleanText(db: Db, ctx: Context, args: string, gw: Gateway): (r: Response)
    ensures r.db == db
    ensures !ctx.textChannel ==> r == Nothing(db)
    ensures ctx.textChannel ==>
              |r.requests| >= 1 && r.requests[0] == FetchRequest(TextCleanCount(args) + 1)
              && TextCleanCount(args) + 1 <= MAX_CLEAN_COUNT + 1
    ensures ctx.textChannel ==>
              match Sweep(TextCleanCount(args), ctx.now, gw).1
              case Deleted(n) =>
                r.requests == Sweep(TextCleanCount(args), ctx.now, gw).0 + [DeleteConfirmation]
                && r.posts == [Post(DeletedText(n), false)]
                              + (if gw.cleanup.Err? then [Post(Failed("clean", gw.cleanup.message), false)] else [])
              case SweepFailed(m) => r.posts == [Post(Failed("clean", m), false)]
  {
    if !ctx.textChannel then Nothing(db)
    else
      var count := TextCleanCount(args);
      var (requests, swept) := Sweep(count, ctx.now, gw);
      match swept
      case SweepFailed(m) => Response(db, [Post(Failed("clean", m), false)], requests)
      case Deleted(n) =>
        var tail := if gw.cleanup.Err? then [Post(Failed("clean", gw.cleanup.message), false)] else [];
        Response(db, [Post(DeletedText(n), false)] + tail, requests + [DeleteConfirmation])
  }

  /** Slash clean: the count option (default 10) is converted to a 32-bit
      integer, which throws when it does not fit, then capped at 100; the
      confirmation (private) reports one less than the number deleted. */
  function CleanSlash(db: Db, ctx: Context, opts: Options, gw: Gateway): (r: SlashResult)
    ensures r.Replied? ==> r.response.db == db && |r.response.posts| == 1
    ensures var raw := IntegerOption(opts, "count").GetOr(DEFAULT_CLEAN_COUNT);
            && (r.Threw? <==> !(INT32_MIN <= raw <= INT32_MAX))
            && (r.Replied? ==> r.response.db == db)
            && (r.Replied? && !ctx.textChannel ==> r.response == Say(db, TEXT_CHANNEL_ONLY, true))
            && (r.Replied? && ctx.textChannel ==>
                  var count := if raw > MAX_CLEAN_COUNT then MAX_CLEAN_COUNT else raw;
                  var (requests, swept) := Sweep(count, ctx.now, gw);
                  && r.response.requests == requests
                  && r.response.requests[0] == FetchRequest(count + 1)
                  && (swept.Deleted? ==> r.response.posts == [Post(DeletedText(swept.count - 1), true)])
                  && (swept.SweepFailed? ==> r.response.posts == [Post(Failed("clean", swept.message), true)]))
  {
    var raw := IntegerOption(opts, "count").GetOr(DEFAULT_CLEAN_COUNT);
    if !(INT32_MIN <= raw <= INT32_MAX) then Threw
    else
      var count := if raw > MAX_CLEAN_COUNT then MAX_CLEAN_COUNT else raw;
      if !ctx.textChannel then Replied(Say(db, TEXT_CHANNEL_ONLY, true))
      else
        var (requests, swept) := Sweep(count, ctx.now, gw);
        match swept
        case Deleted(n) => Replied(Response(db, [Post(DeletedText(n - 1), true)], requests))
        case SweepFailed(m) => Replied(Response(db, [Post(Failed("clean", m), true)], requests))
  }

  // ---------------------------------------------------------------------
  // Mod stats

  function StatsReport(user: Id, s: ModStats): string {
    "📊 **Moderation Statistics**\nStats for " + Mention(user) + "~ 💕\n\n**Total Actions:** "
    + NatToString(s.bans + s.kicks + s.timeouts)
    + "\n🔪 Bans: " + NatToString(s.bans)
    + "\n👢 Kicks: " + NatToString(s.kicks)
    + "\n⏰ Timeouts: " + NatToString(s.timeouts)
  }

  /** The moderator the free-text form reports on: the named user, or the
      invoker when the arguments are empty or name nobody. */
  function StatsSubject(ctx: Context, args: string): (u: Id)
    ensures args == "" || ParseUserMention(args) == 0 ==> u == ctx.author
    ensures args != "" && ParseUserMention(args) != 0 ==> u == ParseUserMention(args)
  {
    if args != "" && ParseUserMention(args) != 0 then ParseUserMention(args) else ctx.author
  }

  /** Free-text mod-stats: the whole argument string names the moderator;
      the report totals bans, kicks and timeouts of that moderator in this
      guild (unbans are not counted) and nothing changes. */
  function ModStatsText(db: Db, ctx: Context, args: string): (r: Response)
    ensures r.db == db && r.requests == []
    ensures ctx.guild.None? ==> r.posts == []
    ensures ctx.guild.Some? ==>
              var u := StatsSubject(ctx, args);
              var s := GetModStats(db, ctx.guild.value, u);
              && r.posts == [Post(StatsReport(u, s), false)]
              && s.bans + s.kicks + s.timeouts
                 == CountByModerator(db.modLog, ctx.guild.value, u)
                    - CountActions(db.modLog, ctx.guild.value, u, Unban)
  {
    match ctx.guild
    case None => Nothing(db)
    case Some(g) =>
      var u := StatsSubject(ctx, args);
      StatsTotalExcludesUnbans(db.modLog, g, u);
      Say(db, StatsReport(u, GetModStats(db, g, u)), false)
  }

  /** Slash mod-stats: a channel outside a guild is answered privately
      before the user option is read; an unresolved member throws; the
      subject is the given user or the invoker. */
  function ModStatsSlash(db: Db, ctx: Context, opts: Options): (r: SlashResult)
    ensures r.Replied? ==> r.response.db == db && |r.response.posts| == 1
    ensures ctx.guild.None? ==> r == Replied(Say(db, SERVER_ONLY, true))
    ensures ctx.guild.Some? ==>
              (r.Threw? <==> "user" in opts.users && !opts.users["user"].isGuildMember)
    ensures ctx.guild.Some? && r.Replied? ==>
              var u := if "user" in opts.users then opts.users["user"].id else ctx.author;
              r.response == Say(db, StatsReport(u, GetModStats(db, ctx.guild.value, u)), false)
  {
    match ctx.guild
    case None => Replied(Say(db, SERVER_ONLY, true))
    case Some(g) =>
      var user := UserOption(opts, "user");
      if user.Some? && !user.value.isGuildMember then Threw
      else
        var u := if user.Some? then user.value.id else ctx.author;
        Replied(Say(db, StatsReport(u, GetModStats(db, g, u)), false))
  }

  // ---------------------------------------------------------------------
  // Cross-cutting properties

  /** A successful free-text ban shows up in the moderator's stats: one
      more ban, the other counts unchanged. */
  lemma BanCountsInStats(db: Db, ctx: Context, args: string, gw: Gateway)
    requires ctx.guild.Some? && gw.action.Ok?
    requires Before(args, ' ') != "" && ParseUserMention(Before(args, ' ')) != 0
    ensures var after := BanText(db, ctx, args, gw).db;
            var before := GetModStats(db, ctx.guild.value, ctx.author);
            GetModStats(after, ctx.guild.value, ctx.author) == before.(bans := before.bans + 1)
  {
    var g, target := ctx.guild.value, ParseUserMention(Before(args, ' '));
    StatsAfterLog(db, g, ctx.author, target, Ban, Some(TextReason(args)), ctx.now, g, ctx.author);
  }

  /** Moderation commands keep the database valid. */
  lemma EnforceKeepsValid(db: Db, a: ModAction, request: Request, outcome: Outcome,
                          confirmation: string, verb: string, ephemeralFailure: bool)
    requires Valid(db) && a.id == |db.modLog| + 1
    ensures Valid(Enforce(db, a, request, outcome, confirmation, verb, ephemeralFailure).db)
  {
  }
}
