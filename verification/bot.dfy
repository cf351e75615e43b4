/** The bot's message path (Bot.cs): incoming messages are ignored,
    answered as direct messages, dispatched as free-text commands, or
    counted as chat that earns XP; and the slash-command schema the bot
    registers. */
module Bot {
  import opened Wrappers
  import opened Text
  import opened Store
  import opened Effects
  import Leveling
  import Router
  import Moderation
  import Fun

  /** Where a message was posted: a direct message, a text channel of a
      guild, or any other kind of channel. */
  datatype Channel = Direct | GuildText(guild: Id) | OtherChannel

  /** An incoming message: its author, whether the author is a bot, whether
      it is a user message at all (rather than a system message), the
      channel, the text, the guild's cached members and the time. */
  datatype Incoming = Incoming(author: Id, authorIsBot: bool, userMessage: bool, channel: Channel,
                               content: string, members: set<Id>, now: int)

  /** The configuration the message path reads. */
  datatype Config = Config(defaultPrefix: string, dmMessage: string)

  const DEFAULT_PREFIX: string := "."
  const DEFAULT_DM_MESSAGE: string := "I'm just a bot :'(. I can't answer to you."

  datatype Kind = Ignored | DmReply | CommandMessage | Chat

  /** `HasStringPrefix`: the content is non-empty and starts with the
      prefix. */
  predicate HasStringPrefix(content: string, prefix: string): (b: bool)
    ensures b <==> content != "" && exists rest :: content == prefix + rest
  {
    assert StartsWith(content, prefix) ==> content == prefix + content[|prefix|..];
    content != "" && StartsWith(content, prefix)
  }

  /** What the bot does with a message. */
  function Classify(db: Db, m: Incoming, cfg: Config): (k: Kind)
    ensures k == DmReply <==> m.userMessage && !m.authorIsBot && m.channel.Direct?
    ensures k == CommandMessage <==>
              m.userMessage && !m.authorIsBot && m.channel.GuildText?
              && HasStringPrefix(m.content, GetPrefix(db, m.channel.guild, cfg.defaultPrefix))
    ensures k == Chat <==>
              m.userMessage && !m.authorIsBot && m.channel.GuildText?
              && !HasStringPrefix(m.content, GetPrefix(db, m.channel.guild, cfg.defaultPrefix))
  {
    if !m.userMessage || m.authorIsBot then Ignored
    else
      match m.channel
      case Direct => DmReply
      case OtherChannel => Ignored
      case GuildText(g) =>
        if HasStringPrefix(m.content, GetPrefix(db, g, cfg.defaultPrefix)) then CommandMessage else Chat
  }

  const LEVEL_UP_HEAD: string := "✨ **Level Up!** ✨\nCongratulations "
  const LEVEL_UP_TAIL: string := "**! 💕"

  /** The level-up announcement: it names the user and ends with the new
      level. */
  function LevelUpText(u: Id, level: nat): (r: string)
    ensures StartsWith(r, LEVEL_UP_HEAD + Mention(u))
    ensures EndsWith(r, NatToString(level) + LEVEL_UP_TAIL)
  {
    var head := LEVEL_UP_HEAD + Mention(u);
    Affixes(head, "! You've reached level **", NatToString(level) + LEVEL_UP_TAIL);
    head + "! You've reached level **" + (NatToString(level) + LEVEL_UP_TAIL)
  }

  /** The announcement determines the level it announces. */
  lemma LevelUpTextNamesLevel(u: Id, a: nat, b: nat)
    requires LevelUpText(u, a) == LevelUpText(u, b)
    ensures a == b
  {
    var head := LEVEL_UP_HEAD + Mention(u) + "! You've reached level **";
    var na, nb := NatToString(a), NatToString(b);
    var ta, tb := head + (na + LEVEL_UP_TAIL), head + (nb + LEVEL_UP_TAIL);
    assert ta == LevelUpText(u, a) && tb == LevelUpText(u, b);
    assert |na| == |nb|;
    assert ta[|head|..|head| + |na|] == na;
    assert tb[|head|..|head| + |nb|] == nb;
  }

  /** The invocation a guild text message makes. */
  function CommandContext(m: Incoming): Context
    requires m.channel.GuildText?
  {
    Context(m.author, Some(m.channel.guild), true, m.members, m.now)
  }

  /** The command text: the content after the guild's prefix. */
  function CommandBody(db: Db, m: Incoming, cfg: Config): (body: string)
    requires m.channel.GuildText?
    requires HasStringPrefix(m.content, GetPrefix(db, m.channel.guild, cfg.defaultPrefix))
    ensures GetPrefix(db, m.channel.guild, cfg.defaultPrefix) + body == m.content
  {
    var prefix := GetPrefix(db, m.channel.guild, cfg.defaultPrefix);
    assert m.content == prefix + m.content[|prefix|..];
    m.content[|prefix|..]
  }

  /** The chat branch: award XP (when leveling is on) and announce a
      level-up exactly when the stored level was raised. */
  function ChatReply(db: Db, u: Id, g: Id, amount: int): (r: Response)
    requires Valid(db)
    requires Leveling.MIN_XP_GAIN <= amount <= Leveling.MAX_XP_GAIN
    ensures var award := Leveling.ChatXp(db, u, g, amount);
            && r.db == award.db && r.requests == []
            && (award.levelUp.None? ==> r.posts == [])
            && (award.levelUp.Some? ==> r.posts == [Post(LevelUpText(u, award.levelUp.value), false)])
    ensures Valid(r.db)
  {
    Leveling.AwardKeepsValid(db, u, g, amount);
    var award := Leveling.ChatXp(db, u, g, amount);
    var posts := if award.levelUp.Some? then [Post(LevelUpText(u, award.levelUp.value), false)] else [];
    Response(award.db, posts, [])
  }

  /** The command branch: the text after the prefix goes to the free-text
      router, which leaves the XP table alone. */
  function CommandReply(db: Db, m: Incoming, cfg: Config, gw: Gateway, pick: nat): (r: Response)
    requires Valid(db)
    requires m.channel.GuildText?
    requires HasStringPrefix(m.content, GetPrefix(db, m.channel.guild, cfg.defaultPrefix))
    requires pick < |Fun.ANSWERS|
    ensures r == Router.HandleText(db, CommandContext(m), CommandBody(db, m, cfg), cfg.defaultPrefix, gw, pick)
    ensures r.db.xp == db.xp
    ensures Valid(r.db)
  {
    var r := Router.HandleText(db, CommandContext(m), CommandBody(db, m, cfg), cfg.defaultPrefix, gw, pick);
    CommandValid(db, r.db);
    r
  }

  /** `MessageReceivedAsync`.  `amount` is the random XP gain and `pick`
      the random 8-ball answer. */
  function MessageReceived(db: Db, m: Incoming, cfg: Config, gw: Gateway, amount: int, pick: nat): (r: Response)
    requires Valid(db)
    requires Leveling.MIN_XP_GAIN <= amount <= Leveling.MAX_XP_GAIN
    requires pick < |Fun.ANSWERS|
    ensures Classify(db, m, cfg) == Ignored ==> r == Nothing(db)
    ensures Classify(db, m, cfg) == DmReply ==> r == Say(db, cfg.dmMessage, false)
    ensures Classify(db, m, cfg) == CommandMessage ==> r == CommandReply(db, m, cfg, gw, pick)
    ensures Classify(db, m, cfg) == Chat ==> r == ChatReply(db, m.author, m.channel.guild, amount)
    ensures Valid(r.db)
  {
    match Classify(db, m, cfg)
    case Ignored => Nothing(db)
    case DmReply => Say(db, cfg.dmMessage, false)
    case CommandMessage => CommandReply(db, m, cfg, gw, pick)
    case Chat => ChatReply(db, m.author, m.channel.guild, amount)
  }

  /** A command's changes keep the database valid. */
  lemma CommandValid(db: Db, r: Db)
    requires Valid(db) && Router.CommandEffect(db, r)
    ensures Valid(r)
  {
    Router.CommandKeepsValid(db, r);
  }

  /** No message lowers a stored level, and XP moves only for the author in
      the message's guild, only for chat, and only when leveling is on
      there. */
  lemma MessageRatchet(db: Db, m: Incoming, cfg: Config, gw: Gateway, amount: int, pick: nat, u: Id, h: Id)
    requires Valid(db)
    requires Leveling.MIN_XP_GAIN <= amount <= Leveling.MAX_XP_GAIN
    requires pick < |Fun.ANSWERS|
    ensures var r := MessageReceived(db, m, cfg, gw, amount, pick);
            && GetUserXp(r.db, u, h).level >= GetUserXp(db, u, h).level
            && (GetUserXp(r.db, u, h).xp != GetUserXp(db, u, h).xp ==>
                  && Classify(db, m, cfg) == Chat && u == m.author && h == m.channel.guild
                  && Leveling.LevelingEnabled(db, h)
                  && GetUserXp(r.db, u, h).xp == GetUserXp(db, u, h).xp + amount)
  {
    var r := MessageReceived(db, m, cfg, gw, amount, pick);
    if Classify(db, m, cfg) == Chat {
      var g := m.channel.guild;
      Leveling.AwardKeepsValid(db, m.author, g, amount);
      if (u, h) != (m.author, g) && Leveling.LevelingEnabled(db, g) {
        assert SameXpExcept(r.db.xp, db.xp, (m.author, g));
        assert GetUserXp(r.db, u, h) == GetUserXp(db, u, h);
      }
    }
  }

  // ---------------------------------------------------------------------
  // Slash-command schema

  datatype OptionType = StringOption | IntegerOption | UserOption

  datatype OptionSpec = OptionSpec(name: string, kind: OptionType, required: bool)

  datatype CommandSpec = CommandSpec(name: string, options: seq<OptionSpec>)

  /** The commands registered at start-up, in registration order. */
  const SCHEMA: seq<CommandSpec> := [
    CommandSpec("ping", []),
    CommandSpec("help", []),
    CommandSpec("source", []),
    CommandSpec("prefix", [OptionSpec("prefix", StringOption, true)]),
    CommandSpec("ban", [OptionSpec("user", UserOption, true), OptionSpec("reason", StringOption, false)]),
    CommandSpec("kick", [OptionSpec("user", UserOption, true), OptionSpec("reason", StringOption, false)]),
    CommandSpec("unban", [OptionSpec("user_id", StringOption, true), OptionSpec("reason", StringOption, false)]),
    CommandSpec("timeout", [OptionSpec("user", UserOption, true), OptionSpec("minutes", IntegerOption, true),
                            OptionSpec("reason", StringOption, false)]),
    CommandSpec("clean", [OptionSpec("count", IntegerOption, false)]),
    CommandSpec("mod-stats", [OptionSpec("user", UserOption, false)]),
    CommandSpec("xp", [OptionSpec("user", UserOption, false)]),
    CommandSpec("leaderboard", []),
    CommandSpec("8ball", [OptionSpec("question", StringOption, true)])
  ]

  /** The registration of a command by name. */
  function SpecOf(name: string): (r: Option<CommandSpec>)
    ensures r.Some? ==> r.value in SCHEMA && r.value.name == name
    ensures r.None? ==> forall i :: 0 <= i < |SCHEMA| ==> SCHEMA[i].name != name
  {
    Find(name, 0)
  }

  function Find(name: string, from: nat): (r: Option<CommandSpec>)
    requires from <= |SCHEMA|
    ensures r.Some? ==> r.value in SCHEMA && r.value.name == name
    ensures r.None? ==> forall i :: from <= i < |SCHEMA| ==> SCHEMA[i].name != name
    decreases |SCHEMA| - from
  {
    if from == |SCHEMA| then None
    else if SCHEMA[from].name == name then Some(SCHEMA[from])
    else Find(name, from + 1)
  }

  /** The names of the required (or the optional) options, in order. */
  function Names(options: seq<OptionSpec>, required: bool): (r: seq<string>)
    ensures forall n :: n in r <==> exists i :: 0 <= i < |options| && options[i].required == required && options[i].name == n
  {
    if options == [] then []
    else
      var rest := Names(options[1..], required);
      assert forall i :: 0 < i < |options| ==> options[i] == options[1..][i - 1];
      if options[0].required == required then [options[0].name] + rest else rest
  }

  /** The commands in registration order. */
  const ORDER: seq<Router.Command> := [
    Router.Ping, Router.Help, Router.Source, Router.Prefix, Router.Ban, Router.Kick, Router.Unban,
    Router.Timeout, Router.Clean, Router.ModStats, Router.Xp, Router.Leaderboard, Router.EightBall]

  /** The position of a command in registration order. */
  function Position(c: Router.Command): (i: nat)
    ensures i < |ORDER| && ORDER[i] == c
  {
    match c
    case Ping => 0
    case Help => 1
    case Source => 2
    case Prefix => 3
    case Ban => 4
    case Kick => 5
    case Unban => 6
    case Timeout => 7
    case Clean => 8
    case ModStats => 9
    case Xp => 10
    case Leaderboard => 11
    case EightBall => 12
  }

  /** The schema registers each command under its routed name, in order. */
  lemma SchemaInOrder()
    ensures |SCHEMA| == |ORDER|
    ensures forall i :: 0 <= i < |SCHEMA| ==> SCHEMA[i].name == Router.Name(ORDER[i])
  {
  }

  /** No command appears twice in registration order. */
  lemma OrderDistinct(i: nat, j: nat)
    requires i < j < |ORDER|
    ensures ORDER[i] != ORDER[j]
  {
    assert Position(ORDER[i]) == i && Position(ORDER[j]) == j;
  }

  /** Distinct commands have distinct names. */
  lemma NameInjective(a: Router.Command, b: Router.Command)
    requires a != b
    ensures Router.Name(a) != Router.Name(b)
  {
    Router.RoutesComplete(a);
    Router.RoutesComplete(b);
  }

  /** Each registered command is routed, and each routed command is
      registered exactly once. */
  lemma SchemaMatchesRoutes(c: Router.Command)
    ensures SpecOf(Router.Name(c)).Some?
    ensures forall i :: 0 <= i < |SCHEMA| ==> Router.SlashRoute(SCHEMA[i].name).Some?
    ensures forall i, j :: 0 <= i < j < |SCHEMA| ==> SCHEMA[i].name != SCHEMA[j].name
  {
    SchemaInOrder();
    assert SCHEMA[Position(c)].name == Router.Name(c);
    forall i | 0 <= i < |SCHEMA|
      ensures Router.SlashRoute(SCHEMA[i].name).Some?
    {
      Router.RoutesComplete(ORDER[i]);
    }
    forall i, j | 0 <= i < j < |SCHEMA|
      ensures SCHEMA[i].name != SCHEMA[j].name
    {
      OrderDistinct(i, j);
      NameInjective(ORDER[i], ORDER[j]);
    }
  }

  /** The required and optional options of the commands that take any. */
  lemma SchemaOptions()
    ensures SCHEMA[3].name == "prefix" && Names(SCHEMA[3].options, true) == ["prefix"]
    ensures Names(SCHEMA[3].options, false) == []
    ensures SCHEMA[4].name == "ban" && Names(SCHEMA[4].options, true) == ["user"]
    ensures Names(SCHEMA[4].options, false) == ["reason"]
    ensures SCHEMA[5].name == "kick" && Names(SCHEMA[5].options, true) == ["user"]
    ensures Names(SCHEMA[5].options, false) == ["reason"]
    ensures SCHEMA[6].name == "unban" && Names(SCHEMA[6].options, true) == ["user_id"]
    ensures Names(SCHEMA[6].options, false) == ["reason"]
    ensures SCHEMA[7].name == "timeout" && Names(SCHEMA[7].options, true) == ["user", "minutes"]
    ensures Names(SCHEMA[7].options, false) == ["reason"]
    ensures SCHEMA[8].name == "clean" && Names(SCHEMA[8].options, true) == []
    ensures Names(SCHEMA[8].options, false) == ["count"]
    ensures SCHEMA[9].name == "mod-stats" && Names(SCHEMA[9].options, true) == []
    ensures Names(SCHEMA[9].options, false) == ["user"]
    ensures SCHEMA[10].name == "xp" && Names(SCHEMA[10].options, true) == []
    ensures Names(SCHEMA[10].options, false) == ["user"]
    ensures SCHEMA[12].name == "8ball" && Names(SCHEMA[12].options, true) == ["question"]
    ensures Names(SCHEMA[12].options, false) == []
  {
  }

  /** Options that fit a registration: every required option is present,
      under the type it is declared with. */
  predicate Conforms(opts: Options, spec: CommandSpec) {
    forall i :: 0 <= i < |spec.options| && spec.options[i].required ==>
      match spec.options[i].kind
      case StringOption => spec.options[i].name in opts.strings
      case IntegerOption => spec.options[i].name in opts.integers
      case UserOption => spec.options[i].name in opts.users
  }

  /** With options the platform validated against the schema, slash ban
      never asks for a user and slash 8-ball never falls back to "...". */
  lemma SchemaRulesOutDefaults(db: Db, ctx: Context, opts: Options, gw: Gateway, pick: nat)
    requires pick < |Fun.ANSWERS|
    ensures Conforms(opts, SCHEMA[4]) ==>
              var r := Moderation.BanSlash(db, ctx, opts, gw);
              r.Replied? ==> r.response != Say(db, Moderation.SPECIFY_BAN, true)
    ensures Conforms(opts, SCHEMA[12]) ==>
              "question" in opts.strings
              && Fun.EightBallSlash(db, opts, pick).response.posts
              == [Post(Fun.Reply(opts.strings["question"], pick), false)]
  {
    if Conforms(opts, SCHEMA[4]) {
      assert SCHEMA[4].options[0].required;
      var r := Moderation.BanSlash(db, ctx, opts, gw);
      if r.Replied? && ctx.guild.Some? {
        assert r.response.requests != [];
      }
    }
    if Conforms(opts, SCHEMA[12]) {
      assert SCHEMA[12].options[0].required;
    }
  }
}
