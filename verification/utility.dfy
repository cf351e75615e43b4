/** The utility and leveling commands (Commands/UtilityCommands.cs):
    ping, help, source, prefix, xp and leaderboard, in free-text and slash
    form, with the XP progress figure and the leaderboard rendering. */
module Utility {
  import opened Wrappers
  import opened Text
  import opened Store
  import opened Effects
  import Leveling
  import Moderation

  const PONG: string := "💓 **Pong!**\nI'm always here for you~ 💕"

  const HELP_TITLE: string := "💕 **Yuno's Commands** 💕\n*\"Let me show you everything I can do for you~\"* 💗\n"

  const HELP_FOOTER: string := "💕 *Yuno is always watching over you~* 💕"

  /** The help menu body; slash names carry a leading `/`. */
  function HelpMenu(lead: string): string {
    "**🔪 Moderation**\n"
    + "`" + lead + "ban` - Ban a user\n"
    + "`" + lead + "kick` - Kick a user\n"
    + "`" + lead + "unban` - Unban a user\n"
    + "`" + lead + "timeout` - Timeout a user\n"
    + "`" + lead + "clean` - Delete messages\n"
    + "`" + lead + "mod-stats` - View moderation stats\n\n"
    + "**\U{2699}\U{FE0F} Utility**\n"
    + "`" + lead + "ping` - Check latency\n"
    + "`" + lead + "prefix` - Set server prefix\n"
    + "`" + lead + "source` - View source code\n"
    + "`" + lead + "help` - This menu\n\n"
    + "**✨ Leveling**\n"
    + "`" + lead + "xp` - Check XP and level\n"
    + "`" + lead + "leaderboard` - Server rankings\n\n"
    + "**🎱 Fun**\n"
    + "`" + lead + "8ball` - Ask the magic 8-ball\n\n"
    + HELP_FOOTER
  }

  const SLASH_HELP: string := HELP_TITLE + "\n" + HelpMenu("/")

  /** The free-text help shows the prefix in force. */
  function TextHelp(prefix: string): string {
    HELP_TITLE + "Prefix: `" + prefix + "`\n\n" + HelpMenu("")
  }

  const SOURCE: string :=
    "📜 **Source Code**\n"
    + "*\"I have nothing to hide from you~\"* 💕\n\n"
    + "**C# Version**: https://github.com/blubskye/yuno_csharp\n"
    + "**C Version**: https://github.com/blubskye/yuno_c\n"
    + "**PHP Version**: https://github.com/blubskye/yuno_php\n"
    + "**Go Version**: https://github.com/blubskye/yuno-go\n"
    + "**Rust Version**: https://github.com/blubskye/yuno_rust\n"
    + "**Original JS**: https://github.com/japaneseenrichmentorganization/Yuno-Gasai-2\n\n"
    + "Licensed under **AGPL-3.0** 💗"

  const PREFIX_TOO_LONG: string := "💔 Prefix too long! Max 5 characters~"

  const MAX_PREFIX_LENGTH: int := 5

  /** The number of leaderboard entries shown. */
  const LEADERBOARD_SIZE: int := 10

  function PrefixUpdated(prefix: string): string {
    "🔧 **Prefix Updated!**\nNew prefix is now: `" + prefix + "` 💕"
  }

  function CurrentPrefix(prefix: string): string {
    "💕 Current prefix: `" + prefix + "`"
  }

  // ---------------------------------------------------------------------
  // Help

  /** The prefix the free-text help reports: the guild's, or the default
      outside a guild. */
  function HelpPrefix(db: Db, ctx: Context, defaultPrefix: string): (p: string)
    ensures ctx.guild.Some? && ctx.guild.value in db.guilds ==> p == db.guilds[ctx.guild.value].prefix
    ensures ctx.guild.None? || ctx.guild.value !in db.guilds ==> p == defaultPrefix
  {
    match ctx.guild
    case Some(g) => GetPrefix(db, g, defaultPrefix)
    case None => defaultPrefix
  }

  // ---------------------------------------------------------------------
  // Prefix

  /** A prefix the commands accept: non-empty and at most five UTF-16
      code units, the unit `String.Length` counts. */
  predicate AcceptablePrefix(p: string) {
    0 < |p| && Utf16Length(p) <= MAX_PREFIX_LENGTH
  }

  /** Slash prefix: a missing, empty or over-long prefix is refused (with
      the "too long" text in every case) and nothing is written; outside a
      guild nothing is written either; otherwise the guild's prefix
      becomes the given one and only that changes. */
  function PrefixSlash(db: Db, ctx: Context, opts: Options): (r: SlashResult)
    ensures r.Replied? && |r.response.posts| == 1
    ensures r.response.db.xp == db.xp && r.response.db.spam == db.spam && r.response.db.modLog == db.modLog
    ensures "prefix" !in opts.strings || !AcceptablePrefix(opts.strings["prefix"]) ==>
              r.response == Say(db, PREFIX_TOO_LONG, true)
    ensures "prefix" in opts.strings && AcceptablePrefix(opts.strings["prefix"]) && ctx.guild.None? ==>
              r.response == Say(db, Moderation.SERVER_ONLY, true)
    ensures "prefix" in opts.strings && AcceptablePrefix(opts.strings["prefix"]) && ctx.guild.Some? ==>
              var p, g := opts.strings["prefix"], ctx.guild.value;
              && r.response.db == SetPrefix(db, g, p)
              && (forall d :: GetPrefix(r.response.db, g, d) == p)
              && r.response.posts == [Post(PrefixUpdated(p), false)] && r.response.requests == []
  {
    var p := StringOption(opts, "prefix");
    if p.None? || p.value == "" || Utf16Length(p.value) > MAX_PREFIX_LENGTH then Replied(Say(db, PREFIX_TOO_LONG, true))
    else if ctx.guild.None? then Replied(Say(db, Moderation.SERVER_ONLY, true))
    else Replied(Say(SetPrefix(db, ctx.guild.value, p.value), PrefixUpdated(p.value), false))
  }

  /** Free-text prefix: no arguments reports the prefix in force, more than
      five characters is refused, anything else becomes the prefix.  Only a
      change reply changes the database. */
  function PrefixText(db: Db, ctx: Context, args: string, defaultPrefix: string): (r: Response)
    ensures r.db.xp == db.xp && r.db.spam == db.spam && r.db.modLog == db.modLog
    ensures r.requests == []
    ensures ctx.guild.None? ==> r == Nothing(db)
    ensures ctx.guild.Some? && args == "" ==>
              r == Say(db, CurrentPrefix(GetPrefix(db, ctx.guild.value, defaultPrefix)), false)
    ensures ctx.guild.Some? && args != "" && !AcceptablePrefix(args) ==> r == Say(db, PREFIX_TOO_LONG, false)
    ensures ctx.guild.Some? && AcceptablePrefix(args) ==>
              && r.db == SetPrefix(db, ctx.guild.value, args)
              && (forall d :: GetPrefix(r.db, ctx.guild.value, d) == args)
              && r.posts == [Post(PrefixUpdated(args), false)]
    ensures r.db != db ==> ctx.guild.Some? && AcceptablePrefix(args)
  {
    match ctx.guild
    case None => Nothing(db)
    case Some(g) =>
      if args == "" then Say(db, CurrentPrefix(GetPrefix(db, g, defaultPrefix)), false)
      else if Utf16Length(args) > MAX_PREFIX_LENGTH then Say(db, PREFIX_TOO_LONG, false)
      else Say(SetPrefix(db, g, args), PrefixUpdated(args), false)
  }

  /** A prefix set with the free-text command is the one the free-text
      help shows afterwards, whatever the default. */
  lemma PrefixTakesEffect(db: Db, ctx: Context, args: string, defaultPrefix: string, d: string)
    requires ctx.guild.Some? && AcceptablePrefix(args)
    ensures HelpPrefix(PrefixText(db, ctx, args, defaultPrefix).db, ctx, d) == args
  {
  }

  /** The length limit counts UTF-16 code units, not characters: three
      knives (each outside the Basic Multilingual Plane) are six units,
      so both commands refuse them and write nothing. */
  lemma PrefixCountsUtf16Units(db: Db, ctx: Context, opts: Options, d: string)
    requires ctx.guild.Some?
    requires "prefix" in opts.strings && opts.strings["prefix"] == "🔪🔪🔪"
    ensures PrefixText(db, ctx, "🔪🔪🔪", d) == Say(db, PREFIX_TOO_LONG, false)
    ensures PrefixSlash(db, ctx, opts).response == Say(db, PREFIX_TOO_LONG, true)
  {
    assert Utf16Length("🔪🔪🔪") == 6;
  }

  // ---------------------------------------------------------------------
  // XP progress

  const INT64_MIN: int := -0x8000_0000_0000_0000
  const INT64_MAX: int := 0x7FFF_FFFF_FFFF_FFFF

  /** Two's-complement wrap-around to 32 bits (C#'s unchecked `int`). */
  function Wrap32(x: int): (r: int)
    ensures INT32_MIN <= r <= INT32_MAX
    ensures (r - x) % 0x1_0000_0000 == 0
    ensures INT32_MIN <= x <= INT32_MAX ==> r == x
  {
    (x - INT32_MIN) % 0x1_0000_0000 + INT32_MIN
  }

  /** Two's-complement wrap-around to 64 bits (C#'s unchecked `long`). */
  function Wrap64(x: int): (r: int)
    ensures INT64_MIN <= r <= INT64_MAX
    ensures (r - x) % 0x1_0000_0000_0000_0000 == 0
    ensures INT64_MIN <= x <= INT64_MAX ==> r == x
  {
    (x - INT64_MIN) % 0x1_0000_0000_0000_0000 + INT64_MIN
  }

  /** C#'s integer division, which truncates toward zero. */
  function TruncDiv(a: int, b: int): (q: int)
    requires b > 0
    ensures a >= 0 ==> q >= 0 && 0 <= a - q * b < b
    ensures a < 0 ==> q <= 0 && -b < a - q * b <= 0
  {
    if a >= 0 then a / b else -((-a) / b)
  }

  /** The progress percentage exactly as the handlers compute it: the
      stored level is an `int`, so `level + 1` and `(level+1)^2 * 100` are
      computed in wrapping 32-bit arithmetic; the XP is a `long`. */
  function ProgressAsWritten(xp: int, level: int): (p: int)
    requires INT64_MIN <= xp <= INT64_MAX && INT32_MIN <= level <= INT32_MAX
    ensures INT32_MIN <= p <= INT32_MAX
  {
    var nextLevel := Wrap32(level + 1);
    var xpForNext := Wrap32(Wrap32(nextLevel * nextLevel) * 100);
    if xpForNext > 0 then Wrap32(TruncDiv(Wrap64(xp * 100), xpForNext)) else 0
  }

  /** At level 6553 with the least XP of that level the 32-bit product
      wraps to a small positive number, and the progress comes out as
      819025 percent. */
  lemma ProgressOverflows()
    ensures Leveling.LevelFor(4294180900) == 6553
    ensures ProgressAsWritten(4294180900, 6553) == 819025
  {
    assert 6553 * 6553 * 100 == 4294180900;
    assert 6554 * 6554 * 100 == 4295491600;
    Leveling.LevelUnique(4294180900, 6553);
    WrapSteps();
    var nextLevel := Wrap32(6553 + 1);
    assert nextLevel == 6554;
    var square := Wrap32(nextLevel * nextLevel);
    assert square == 42954916;
    var xpForNext := Wrap32(square * 100);
    assert xpForNext == 524304;
    var scaled := Wrap64(4294180900 * 100);
    assert scaled == 429418090000;
    assert TruncDiv(scaled, xpForNext) == 819025 by {
      assert 819025 * 524304 <= 429418090000 < 819026 * 524304;
    }
  }

  /** The wrap-arounds of the overflow example, one at a time. */
  lemma WrapSteps()
    ensures Wrap32(6554) == 6554
    ensures Wrap32(6554 * 6554) == 42954916
    ensures Wrap32(42954916 * 100) == 524304
    ensures Wrap64(4294180900 * 100) == 429418090000
  {
    assert 6554 * 6554 == 42954916;
    assert 42954916 * 100 == 4295491600;
    assert 4294180900 * 100 == 429418090000;
    assert Wrap32(4295491600) == 524304 by {
      assert 4295491600 - INT32_MIN == 6442975248;
      assert 6442975248 % 0x1_0000_0000 == 2148007952;
    }
  }

  /** `(level + 1)^2`, the next level's threshold in hundreds of XP. */
  function NextSquare(level: int): int {
    (level + 1) * (level + 1)
  }

  /** Scaling dividend and divisor by 100 leaves the quotient bracketed the
      same way. */
  lemma ScaledQuotient(x: int, n: int, p: int)
    requires x >= 0 && n > 0
    requires p == (x * 100) / (n * 100)
    ensures 0 <= p && p * n <= x < (p + 1) * n
  {
    var d := n * 100;
    var r := (x * 100) % d;
    assert x * 100 == p * d + r && 0 <= r < d;
    assert p * d == (p * n) * 100;
    assert (p + 1) * n == p * n + n;
  }

  /** The progress percentage computed without overflow: the share of the
      next level's threshold `(level+1)^2 * 100` already earned, which is
      the whole number of hundredths of the threshold the XP covers. */
  function Progress(xp: int, level: int): (p: int)
    ensures xp >= 0 && level >= -1 ==>
              (level == -1 ==> p == 0) && (level >= 0 ==> 0 <= p && p * NextSquare(level) <= xp < (p + 1) * NextSquare(level))
  {
    var n := NextSquare(level);
    var xpForNext := n * 100;
    if xpForNext > 0 then
      var p := TruncDiv(xp * 100, xpForNext);
      assert xp >= 0 && level >= 0 ==> 0 <= p && p * n <= xp < (p + 1) * n by {
        if xp >= 0 && level >= 0 {
          ScaledQuotient(xp, n, p);
        }
      }
      p
    else 0
  }

  /** With the level the leveling engine keeps (the one the XP reaches),
      the progress is a percentage below 100. */
  lemma ProgressInRange(xp: int)
    requires xp >= 0
    ensures 0 <= Progress(xp, Leveling.LevelFor(xp)) <= 99
  {
    var l := Leveling.LevelFor(xp);
    var n := NextSquare(l);
    var p := Progress(xp, l);
    assert 0 <= p && p * n <= xp < n * 100;
    BelowHundred(p, n, xp);
  }

  lemma BelowHundred(p: int, n: int, x: int)
    requires n > 0 && 0 <= p && p * n <= x < n * 100
    ensures p <= 99
  {
  }

  /** The progress agrees with the 32-bit computation whenever that one
      does not overflow: up to level 4633, for XP whose hundredfold fits a
      `long`, and when the percentage fits an `int`. */
  lemma ProgressAgrees(xp: int, level: int)
    requires 0 <= xp && xp * 100 <= INT64_MAX && 0 <= level <= 4633
    requires Progress(xp, level) <= INT32_MAX
    ensures ProgressAsWritten(xp, level) == Progress(xp, level)
  {
    var n := NextSquare(level);
    SquareBound(level + 1, 4634);
    assert 1 <= n <= 4634 * 4634;
    assert 100 <= n * 100 <= INT32_MAX;
    assert Wrap32(level + 1) == level + 1;
    assert Wrap32(Wrap32((level + 1) * (level + 1)) * 100) == n * 100;
    assert Wrap64(xp * 100) == xp * 100;
  }

  lemma SquareBound(a: int, b: int)
    requires 1 <= a <= b
    ensures 1 <= a * a <= b * b
  {
    assert a * a <= a * b <= b * b;
  }

  /** The XP report: who, level, XP and progress to the next level. */
  function XpReport(user: Id, xp: int, level: int, progress: int): (r: string)
    ensures StartsWith(r, "✨ **XP Stats**\n" + Mention(user))
    ensures EndsWith(r, "\n**Progress to Next:** " + IntToString(progress) + "%")
  {
    var head := "✨ **XP Stats**\n" + Mention(user);
    var middle := "'s progress~ 💕\n\n**Level:** " + IntToString(level) + "\n**XP:** " + IntToString(xp);
    var tail := "\n**Progress to Next:** " + IntToString(progress) + "%";
    Affixes(head, middle, tail);
    head + middle + tail
  }

  /** The report for one user of one guild, read from the XP table; for a
      row whose level is the one its XP reaches, the percentage shown is
      below 100. */
  function XpReportFor(db: Db, u: Id, g: Id): (r: string)
    ensures var row := GetUserXp(db, u, g);
            exists p :: r == XpReport(u, row.xp, row.level, p)
                        && (row.xp >= 0 && row.level == Leveling.LevelFor(row.xp) ==> 0 <= p <= 99)
  {
    var row := GetUserXp(db, u, g);
    var p := Progress(row.xp, row.level);
    assert row.xp >= 0 && row.level == Leveling.LevelFor(row.xp) ==> 0 <= p <= 99 by {
      if row.xp >= 0 && row.level == Leveling.LevelFor(row.xp) {
        ProgressInRange(row.xp);
      }
    }
    XpReport(u, row.xp, row.level, p)
  }

  /** Below the overflow, the report is the one the handlers post as
      written. */
  lemma XpReportAsWritten(db: Db, u: Id, g: Id)
    requires var row := GetUserXp(db, u, g);
             0 <= row.xp && row.xp * 100 <= INT64_MAX && 0 <= row.level <= 4633
             && row.level == Leveling.LevelFor(row.xp)
    ensures var row := GetUserXp(db, u, g);
            XpReportFor(db, u, g) == XpReport(u, row.xp, row.level, ProgressAsWritten(row.xp, row.level))
  {
    var row := GetUserXp(db, u, g);
    ProgressInRange(row.xp);
    ProgressAgrees(row.xp, row.level);
  }

  /** The user the free-text xp command reports on: the named user, or the
      invoker when the arguments are empty or name nobody. */
  function XpSubject(ctx: Context, args: string): (u: Id)
    ensures args == "" || ParseUserMention(args) == 0 ==> u == ctx.author
    ensures args != "" && ParseUserMention(args) != 0 ==> u == ParseUserMention(args)
  {
    var u := ctx.author;
    if args != "" then
      var mentioned := ParseUserMention(args);
      if mentioned != 0 then mentioned else u
    else u
  }

  /** Free-text xp: reads only. */
  function XpText(db: Db, ctx: Context, args: string): (r: Response)
    ensures r.db == db && r.requests == []
    ensures ctx.guild.None? ==> r.posts == []
    ensures ctx.guild.Some? ==> r.posts == [Post(XpReportFor(db, XpSubject(ctx, args), ctx.guild.value), false)]
  {
    match ctx.guild
    case None => Nothing(db)
    case Some(g) => Say(db, XpReportFor(db, XpSubject(ctx, args), g), false)
  }

  /** Slash xp: outside a guild it answers privately before reading the
      user option; an unresolved member throws. */
  function XpSlash(db: Db, ctx: Context, opts: Options): (r: SlashResult)
    ensures r.Replied? ==> r.response.db == db && |r.response.posts| == 1
    ensures ctx.guild.None? ==> r == Replied(Say(db, Moderation.SERVER_ONLY, true))
    ensures ctx.guild.Some? ==> (r.Threw? <==> "user" in opts.users && !opts.users["user"].isGuildMember)
    ensures ctx.guild.Some? && r.Replied? ==>
              var u := if "user" in opts.users then opts.users["user"].id else ctx.author;
              r.response == Say(db, XpReportFor(db, u, ctx.guild.value), false)
  {
    match ctx.guild
    case None => Replied(Say(db, Moderation.SERVER_ONLY, true))
    case Some(g) =>
      var user := UserOption(opts, "user");
      if user.Some? && !user.value.isGuildMember then Threw
      else
        var u := if user.Some? then user.value.id else ctx.author;
        Replied(Say(db, XpReportFor(db, u, g), false))
  }

  // ---------------------------------------------------------------------
  // Leaderboard

  const LEADERBOARD_HEADER: string := "🏆 **Server Leaderboard**\n*\"Look who's been the most active~\"* 💕\n\n"

  const NO_XP_YET: string := "No one has earned XP yet~"

  /** Gold, silver and bronze for the first three places, nothing after. */
  function Medal(i: nat): (m: string)
    ensures m != "" <==> i < 3
    ensures m != "" ==> m[0] != ' '
  {
    if i == 0 then "🥇" else if i == 1 then "🥈" else if i == 2 then "🥉" else ""
  }

  /** Medal, rank `i + 1` and user: the start of an entry line.  It starts
      with a space exactly when there is no medal. */
  function EntryHead(i: nat, x: UserXp): (head: string)
    ensures head == Medal(i) + " " + NatToString(i + 1) + ". " + Mention(x.userId)
    ensures |head| > 0 && (head[0] == ' ' <==> i >= 3)
  {
    var medal := Medal(i);
    var head := medal + (" " + NatToString(i + 1) + ". " + Mention(x.userId));
    assert head[0] == if i < 3 then medal[0] else ' ';
    head
  }

  /** The line of the entry at index `i`: medal, rank `i + 1`, user, level
      and XP.  It starts with a space exactly when there is no medal, and
      it always ends with a line break. */
  function EntryLine(i: nat, x: UserXp): (line: string)
    ensures StartsWith(line, Medal(i) + " " + NatToString(i + 1) + ". " + Mention(x.userId))
    ensures StartsWith(line, " ") <==> i >= 3
    ensures |line| > 0 && line[|line| - 1] == '\n'
  {
    var head := EntryHead(i, x);
    var tail := " - Level " + IntToString(x.level) + " (" + IntToString(x.xp) + " XP)\n";
    assert tail[|tail| - 1] == '\n';
    var line := head + tail;
    assert line[..|head|] == head;
    assert line[0] == head[0];
    assert line[..1] == [head[0]];
    line
  }

  /** The strings one after another. */
  function Concat(ls: seq<string>): string {
    if |ls| == 0 then "" else ls[0] + Concat(ls[1..])
  }

  /** The line of every entry, entry `i` ranked `i + 1`. */
  function EntryLines(top: seq<UserXp>): (ls: seq<string>)
    ensures |ls| == |top|
    ensures forall i :: 0 <= i < |top| ==> ls[i] == EntryLine(i, top[i])
  {
    seq(|top|, i requires 0 <= i < |top| => EntryLine(i, top[i]))
  }

  /** The entries from index `from` on, one line each. */
  function Lines(top: seq<UserXp>, from: nat): (s: string)
    requires from <= |top|
    ensures s == Concat(EntryLines(top)[from..])
    ensures from < |top| ==> |s| > 0 && s[|s| - 1] == '\n'
    ensures from < |top| ==> StartsWith(s, EntryLine(from, top[from]))
    decreases |top| - from
  {
    if from == |top| then ""
    else
      var line := EntryLine(from, top[from]);
      var rest := Lines(top, from + 1);
      var s := line + rest;
      var ls := EntryLines(top);
      assert ls[from..][0] == line && ls[from..][1..] == ls[from + 1..];
      assert s[..|line|] == line;
      assert from + 1 < |top| ==> s[|s| - 1] == rest[|rest| - 1];
      s
  }

  /** The leaderboard message: the header, one line per entry, and the
      "no one yet" note exactly when there are no entries. */
  function RenderLeaderboard(top: seq<UserXp>): (r: string)
    ensures StartsWith(r, LEADERBOARD_HEADER)
    ensures |top| == 0 ==> r == LEADERBOARD_HEADER + NO_XP_YET
    ensures EndsWith(r, NO_XP_YET) <==> |top| == 0
    ensures |top| > 0 ==> StartsWith(r[|LEADERBOARD_HEADER|..], EntryLine(0, top[0]))
    ensures |top| > 0 ==> r == LEADERBOARD_HEADER + Concat(EntryLines(top))
  {
    if |top| == 0 then
      Affixes(LEADERBOARD_HEADER, "", NO_XP_YET);
      LEADERBOARD_HEADER + NO_XP_YET
    else
      var body := Lines(top, 0);
      assert EntryLines(top)[0..] == EntryLines(top);
      assert NO_XP_YET[|NO_XP_YET| - 1] == '~';
      HeadedLines(LEADERBOARD_HEADER, body, NO_XP_YET);
      LEADERBOARD_HEADER + body
  }

  /** A header followed by lines that end in a line break starts with the
      header and does not end with a note that ends otherwise. */
  lemma HeadedLines(header: string, body: string, note: string)
    requires |body| > 0 && body[|body| - 1] == '\n'
    requires |note| > 0 && note[|note| - 1] != '\n'
    ensures StartsWith(header + body, header) && (header + body)[|header|..] == body
    ensures !EndsWith(header + body, note)
  {
    Affixes(header, body, "");
    var r := header + body;
    assert r[|r| - 1] == body[|body| - 1];
    LastCharDiffers(r, note);
  }

  /** Free-text leaderboard: the top ten of the guild, rendered; reads
      only. */
  function LeaderboardText(db: Db, ctx: Context): (r: Response)
    ensures r.db == db && r.requests == []
    ensures ctx.guild.None? ==> r.posts == []
    ensures ctx.guild.Some? ==>
              r.posts == [Post(RenderLeaderboard(GetLeaderboard(db, ctx.guild.value, LEADERBOARD_SIZE)), false)]
  {
    match ctx.guild
    case None => Nothing(db)
    case Some(g) => Say(db, RenderLeaderboard(GetLeaderboard(db, g, LEADERBOARD_SIZE)), false)
  }

  function LeaderboardSlash(db: Db, ctx: Context): (r: SlashResult)
    ensures r.Replied? && r.response.db == db && |r.response.posts| == 1
    ensures ctx.guild.None? ==> r == Replied(Say(db, Moderation.SERVER_ONLY, true))
    ensures ctx.guild.Some? ==>
              r == Replied(Say(db, RenderLeaderboard(GetLeaderboard(db, ctx.guild.value, LEADERBOARD_SIZE)), false))
  {
    match ctx.guild
    case None => Replied(Say(db, Moderation.SERVER_ONLY, true))
    case Some(g) => Replied(Say(db, RenderLeaderboard(GetLeaderboard(db, g, LEADERBOARD_SIZE)), false))
  }

  /** A guild whose XP table has no rows shows the "no one yet" note. */
  lemma EmptyGuildLeaderboard(db: Db, g: Id)
    requires forall u :: (u, g) !in db.xp
    ensures RenderLeaderboard(GetLeaderboard(db, g, LEADERBOARD_SIZE)) == LEADERBOARD_HEADER + NO_XP_YET
  {
  }

  // ---------------------------------------------------------------------
  // The second copy of the mention parser

  /** The utility commands' own copy of the mention parser. */
  function ParseUserMention(mention: string): (r: Id)
    ensures r != 0 ==> exists d :: Moderation.Spells(mention, d) && DecimalValue(d) == r
  {
    var shaped := StartsWith(mention, "<@") && EndsWith(mention, ">");
    var inner: Option<Id> :=
      if shaped then
        assert mention[1] == mention[..2][1] && mention[|mention| - 1] == mention[|mention| - 1..][0];
        var idStr := mention[2..|mention| - 1];
        ParseULong(if StartsWith(idStr, "!") then idStr[1..] else idStr)
      else None;
    if inner.Some? then
      Moderation.BodySpelled(mention);
      inner.value
    else if ParseULong(mention).Some? then
      assert Moderation.Spells(mention, mention);
      ParseULong(mention).value
    else 0
  }

  /** Both copies of the parser give the same id for every token. */
  lemma MentionParsersAgree(mention: string)
    ensures ParseUserMention(mention) == Moderation.ParseUserMention(mention)
  {
  }
}
