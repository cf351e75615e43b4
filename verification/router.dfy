/** Command routing (Commands/CommandHandler.cs): the free-text command
    line is tokenised into a lower-cased name and an argument string and
    routed through an alias table; slash commands are routed by exact
    name, and an unknown name or a handler that throws gets a fixed
    private reply. */
module Router {
  import opened Wrappers
  import opened Text
  import Store
  import opened Effects
  import Moderation
  import Utility
  import Fun

  datatype Command =
    | Ping | Help | Source | Prefix | Xp | Leaderboard
    | Ban | Kick | Unban | Timeout | Clean | ModStats
    | EightBall

  const UNKNOWN_COMMAND: string := "💔 Unknown command~"
  const WENT_WRONG: string := "💔 Something went wrong~"

  /** The name a command is registered under, and matched by in both
      forms. */
  function Name(c: Command): string {
    match c
    case Ping => "ping"
    case Help => "help"
    case Source => "source"
    case Prefix => "prefix"
    case Xp => "xp"
    case Leaderboard => "leaderboard"
    case Ban => "ban"
    case Kick => "kick"
    case Unban => "unban"
    case Timeout => "timeout"
    case Clean => "clean"
    case ModStats => "mod-stats"
    case EightBall => "8ball"
  }

  /** The extra names the free-text form accepts. */
  function Aliases(c: Command): set<string> {
    match c
    case Xp => {"level", "rank"}
    case Leaderboard => {"lb", "top"}
    case ModStats => {"modstats"}
    case _ => {}
  }

  /** The slash form's switch: exact names only. */
  function SlashRoute(name: string): (r: Option<Command>)
    ensures r.Some? ==> Name(r.value) == name
  {
    match name
    case "ping" => Some(Ping)
    case "help" => Some(Help)
    case "source" => Some(Source)
    case "prefix" => Some(Prefix)
    case "xp" => Some(Xp)
    case "leaderboard" => Some(Leaderboard)
    case "ban" => Some(Ban)
    case "kick" => Some(Kick)
    case "unban" => Some(Unban)
    case "timeout" => Some(Timeout)
    case "clean" => Some(Clean)
    case "mod-stats" => Some(ModStats)
    case "8ball" => Some(EightBall)
    case _ => None
  }

  /** The free-text form's switch: the names and the aliases. */
  function TextRoute(name: string): (r: Option<Command>)
    ensures r.Some? ==> name == Name(r.value) || name in Aliases(r.value)
  {
    match name
    case "ping" => Some(Ping)
    case "help" => Some(Help)
    case "source" => Some(Source)
    case "prefix" => Some(Prefix)
    case "xp" => Some(Xp)
    case "level" => Some(Xp)
    case "rank" => Some(Xp)
    case "leaderboard" => Some(Leaderboard)
    case "lb" => Some(Leaderboard)
    case "top" => Some(Leaderboard)
    case "ban" => Some(Ban)
    case "kick" => Some(Kick)
    case "unban" => Some(Unban)
    case "timeout" => Some(Timeout)
    case "clean" => Some(Clean)
    case "mod-stats" => Some(ModStats)
    case "modstats" => Some(ModStats)
    case "8ball" => Some(EightBall)
    case _ => None
  }

  /** Every command is reached by its name in both forms, and by each of
      its aliases in the free-text form; so each name reaches exactly one
      command. */
  lemma RoutesComplete(c: Command)
    ensures SlashRoute(Name(c)) == Some(c)
    ensures TextRoute(Name(c)) == Some(c)
    ensures forall a :: a in Aliases(c) ==> TextRoute(a) == Some(c)
  {
  }

  /** The slash form routes a name exactly when it is a command's name. */
  lemma SlashRouteExact(name: string, c: Command)
    ensures SlashRoute(name) == Some(c) <==> name == Name(c)
  {
    RoutesComplete(c);
  }

  /** The free-text form routes a name to a command exactly when it is the
      command's name or one of its aliases. */
  lemma TextRouteExact(name: string, c: Command)
    ensures TextRoute(name) == Some(c) <==> name == Name(c) || name in Aliases(c)
  {
    RoutesComplete(c);
  }

  /** The free-text form accepts everything the slash form does, with the
      same meaning. */
  lemma TextRouteExtendsSlash(name: string)
    ensures SlashRoute(name).Some? ==> TextRoute(name) == SlashRoute(name)
  {
    if SlashRoute(name).Some? {
      RoutesComplete(SlashRoute(name).value);
    }
  }

  // ---------------------------------------------------------------------
  // Tokenising

  datatype CommandLine = CommandLine(name: string, args: string)

  /** The text after the prefix, trimmed and split at its first space: the
      first token lower-cased is the name, the rest (possibly empty) the
      arguments. */
  function ParseCommandLine(body: string): (r: CommandLine)
    ensures r.name == Lower(Before(Trim(body), ' '))
    ensures r.args == After(Trim(body), ' ').GetOr("")
    ensures HasNoUpper(r.name)
    ensures ' ' !in r.name
  {
    var content := Trim(body);
    var parts := SplitN(content, ' ', 2);
    FirstWord(content, parts);
    LowerIsLower(parts[0]);
    LowerNoSpace(parts[0]);
    CommandLine(Lower(parts[0]), if |parts| > 1 then parts[1] else "")
  }

  /** The two fields of `Split(' ', 2)` are the first word and the rest. */
  lemma FirstWord(content: string, parts: seq<string>)
    requires parts == SplitN(content, ' ', 2)
    ensures parts[0] == Before(content, ' ') && ' ' !in parts[0]
    ensures (if |parts| > 1 then parts[1] else "") == After(content, ' ').GetOr("")
  {
    SplitTwo(content, ' ');
  }

  /** The name is matched case-insensitively: an upper-cased command line
      yields the same name, hence the same command. */
  lemma NameIgnoresCase(body: string)
    ensures ParseCommandLine(Upper(body)).name == ParseCommandLine(body).name
    ensures TextRoute(ParseCommandLine(Upper(body)).name) == TextRoute(ParseCommandLine(body).name)
  {
    TrimUpper(body);
    BeforeSpaceUpper(Trim(body));
    LowerOfUpper(Before(Trim(body), ' '));
  }

  /** A name followed by a space and arguments parses back into that name
      and those arguments, whatever the case of the name. */
  lemma ParseCommandLineOf(name: string, args: string)
    requires name != [] && ' ' !in name && !IsWhiteSpace(name[0])
    requires args != [] && !IsWhiteSpace(args[|args| - 1])
    ensures ParseCommandLine(name + " " + args) == CommandLine(Lower(name), args)
  {
    var line := name + " " + args;
    TrimOfTrimmed(line);
    FirstSeparator(line, name, args, ' ');
  }

  /** A string without white space at either end is its own trim. */
  lemma TrimOfTrimmed(s: string)
    requires s != [] && !IsWhiteSpace(s[0]) && !IsWhiteSpace(s[|s| - 1])
    ensures Trim(s) == s
  {
  }

  // ---------------------------------------------------------------------
  // Dispatch

  /** What a command may do to the database: nothing to the XP table or
      the spam counters, and to the log at most append one record, numbered
      next. */
  predicate CommandEffect(db: Store.Db, r: Store.Db) {
    && r.xp == db.xp
    && r.spam == db.spam
    && (r.modLog == db.modLog
        || (&& |r.modLog| == |db.modLog| + 1 && r.modLog[..|db.modLog|] == db.modLog
            && r.modLog[|db.modLog|].id == |db.modLog| + 1))
  }

  predicate Enforcing(c: Command) {
    c == Ban || c == Kick || c == Unban || c == Timeout
  }

  /** The free-text handler of a command. */
  function RunText(c: Command, db: Store.Db, ctx: Context, args: string, defaultPrefix: string,
                   gw: Gateway, pick: nat): (r: Response)
    requires pick < |Fun.ANSWERS|
    ensures CommandEffect(db, r.db)
    ensures r.db.guilds != db.guilds ==> c == Prefix
    ensures r.db.modLog != db.modLog ==> Enforcing(c) && gw.action.Ok?
  {
    if Enforcing(c) then EnforcementText(c, db, ctx, args, gw)
    else if c == Prefix then Utility.PrefixText(db, ctx, args, defaultPrefix)
    else QuietText(c, db, ctx, args, defaultPrefix, gw, pick)
  }

  /** Ban, kick, unban and timeout: at most one log record, on success. */
  function EnforcementText(c: Command, db: Store.Db, ctx: Context, args: string, gw: Gateway): (r: Response)
    requires Enforcing(c)
    ensures r.db == db || (gw.action.Ok? && Moderation.LogsOne(db, r.db))
  {
    match c
    case Ban => Moderation.BanText(db, ctx, args, gw)
    case Kick => Moderation.KickText(db, ctx, args, gw)
    case Unban => Moderation.UnbanText(db, ctx, args, gw)
    case Timeout => Moderation.TimeoutText(db, ctx, args, gw)
  }

  /** The free-text commands that only read the database. */
  function QuietText(c: Command, db: Store.Db, ctx: Context, args: string, defaultPrefix: string,
                     gw: Gateway, pick: nat): (r: Response)
    requires !Enforcing(c) && c != Prefix && pick < |Fun.ANSWERS|
    ensures r.db == db
  {
    match c
    case Ping => Say(db, Utility.PONG, false)
    case Help => Say(db, Utility.TextHelp(Utility.HelpPrefix(db, ctx, defaultPrefix)), false)
    case Source => Say(db, Utility.SOURCE, false)
    case Xp => Utility.XpText(db, ctx, args)
    case Leaderboard => Utility.LeaderboardText(db, ctx)
    case Clean => Moderation.CleanText(db, ctx, args, gw)
    case ModStats => Moderation.ModStatsText(db, ctx, args)
    case EightBall => Fun.EightBallText(db, args, pick)
  }

  /** The free-text command path: tokenise, route, run.  An unknown name
      is ignored silently; a known one runs its handler with the argument
      string. */
  function HandleText(db: Store.Db, ctx: Context, body: string, defaultPrefix: string,
                      gw: Gateway, pick: nat): (r: Response)
    requires pick < |Fun.ANSWERS|
    ensures var line := ParseCommandLine(body);
            && (TextRoute(line.name).None? ==> r == Nothing(db))
            && (TextRoute(line.name).Some? ==>
                  r == RunText(TextRoute(line.name).value, db, ctx, line.args, defaultPrefix, gw, pick))
    ensures CommandEffect(db, r.db)
  {
    var line := ParseCommandLine(body);
    match TextRoute(line.name)
    case None => Nothing(db)
    case Some(c) => RunText(c, db, ctx, line.args, defaultPrefix, gw, pick)
  }

  /** The commands of the moderation group. */
  predicate Moderating(c: Command) {
    Enforcing(c) || c == Clean || c == ModStats
  }

  /** What a slash handler that replied did: at least one post, and only
      the changes a command may make. */
  predicate SlashEffect(c: Command, db: Store.Db, r: Response, gw: Gateway) {
    && CommandEffect(db, r.db) && |r.posts| >= 1
    && (r.db.guilds != db.guilds ==> c == Prefix)
    && (r.db.modLog != db.modLog ==> Enforcing(c) && gw.action.Ok?)
  }

  /** The slash handler of a command. */
  function RunSlash(c: Command, db: Store.Db, ctx: Context, opts: Options, gw: Gateway, pick: nat): (r: SlashResult)
    requires pick < |Fun.ANSWERS|
    ensures r.Replied? ==> SlashEffect(c, db, r.response, gw)
  {
    if Moderating(c) then ModerationSlash(c, db, ctx, opts, gw) else OtherSlash(c, db, ctx, opts, pick)
  }

  function ModerationSlash(c: Command, db: Store.Db, ctx: Context, opts: Options, gw: Gateway): (r: SlashResult)
    requires Moderating(c)
    ensures r.Replied? ==> SlashEffect(c, db, r.response, gw)
  {
    if Enforcing(c) then EnforcementSlash(c, db, ctx, opts, gw)
    else if c == Clean then Moderation.CleanSlash(db, ctx, opts, gw)
    else Moderation.ModStatsSlash(db, ctx, opts)
  }

  function EnforcementSlash(c: Command, db: Store.Db, ctx: Context, opts: Options, gw: Gateway): (r: SlashResult)
    requires Enforcing(c)
    ensures r.Replied? ==> SlashEffect(c, db, r.response, gw)
  {
    var r := match c
      case Ban => Moderation.BanSlash(db, ctx, opts, gw)
      case Kick => Moderation.KickSlash(db, ctx, opts, gw)
      case Unban => Moderation.UnbanSlash(db, ctx, opts, gw)
      case Timeout => Moderation.TimeoutSlash(db, ctx, opts, gw);
    assert r.Replied? ==> |r.response.posts| == 1
                          && (r.response.db == db || (gw.action.Ok? && Moderation.LogsOne(db, r.response.db)));
    r
  }

  function OtherSlash(c: Command, db: Store.Db, ctx: Context, opts: Options, pick: nat): (r: SlashResult)
    requires !Moderating(c) && pick < |Fun.ANSWERS|
    ensures r.Replied? ==> CommandEffect(db, r.response.db) && |r.response.posts| >= 1
    ensures r.Replied? ==> r.response.db.modLog == db.modLog
    ensures r.Replied? && r.response.db.guilds != db.guilds ==> c == Prefix
  {
    if c == Prefix then Utility.PrefixSlash(db, ctx, opts) else QuietSlash(c, db, ctx, opts, pick)
  }

  /** The slash commands that only read the database. */
  function QuietSlash(c: Command, db: Store.Db, ctx: Context, opts: Options, pick: nat): (r: SlashResult)
    requires !Moderating(c) && c != Prefix && pick < |Fun.ANSWERS|
    ensures r.Replied? ==> r.response.db == db && |r.response.posts| == 1
  {
    match c
    case Ping => Replied(Say(db, Utility.PONG, false))
    case Help => Replied(Say(db, Utility.SLASH_HELP, false))
    case Source => Replied(Say(db, Utility.SOURCE, false))
    case Xp => Utility.XpSlash(db, ctx, opts)
    case Leaderboard => Utility.LeaderboardSlash(db, ctx)
    case EightBall => Fun.EightBallSlash(db, opts, pick)
  }

  /** The slash command path: an unknown name and a handler that throws
      each get one fixed private reply and change nothing; otherwise the
      handler's response.  Every slash command gets at least one reply. */
  function HandleSlash(db: Store.Db, ctx: Context, name: string, opts: Options, gw: Gateway, pick: nat): (r: Response)
    requires pick < |Fun.ANSWERS|
    ensures SlashRoute(name).None? ==> r == Say(db, UNKNOWN_COMMAND, true)
    ensures SlashRoute(name).Some? && RunSlash(SlashRoute(name).value, db, ctx, opts, gw, pick).Threw? ==>
              r == Say(db, WENT_WRONG, true)
    ensures SlashRoute(name).Some? && RunSlash(SlashRoute(name).value, db, ctx, opts, gw, pick).Replied? ==>
              r == RunSlash(SlashRoute(name).value, db, ctx, opts, gw, pick).response
    ensures CommandEffect(db, r.db) && |r.posts| >= 1
  {
    match SlashRoute(name)
    case None => Say(db, UNKNOWN_COMMAND, true)
    case Some(c) =>
      match RunSlash(c, db, ctx, opts, gw, pick)
      case Threw => Say(db, WENT_WRONG, true)
      case Replied(resp) => resp
  }

  /** Commands keep the database valid: log ids stay consecutive. */
  lemma CommandKeepsValid(db: Store.Db, r: Store.Db)
    requires Store.Valid(db) && CommandEffect(db, r)
    ensures Store.Valid(r)
  {
    forall i | 0 <= i < |r.modLog|
      ensures r.modLog[i].id == i + 1
    {
      if i < |db.modLog| {
        assert r.modLog[i] == r.modLog[..|db.modLog|][i];
      }
    }
  }
}
