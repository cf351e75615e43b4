# Yuno Gasai 2 (C# edition) — a Dafny model

Yuno is a Discord moderation bot. This project models its core as pure Dafny
functions over an immutable database value:

- **Store** (`Database.cs`): the SQLite tables become maps, and the moderation
  log becomes an append-only sequence. The queries are the guild settings and
  prefix, XP rows, the leaderboard, the moderation log, per-moderator stats and
  spam warnings.
- **Leveling** (`Bot.cs`): chat XP, `level = floor(sqrt(xp / 100))`, and the
  rule that a level is stored only when it rises.
- **Moderation**, **Utility** and **Fun** (`Commands/*.cs`): every slash
  handler and every free-text handler.
  - Each handler is a function from the database, the invocation and the
    Discord outcome to a `Response`.
  - The `Response` holds the new database, the Discord requests issued and the
    messages posted, with their exact texts.
- **Router** (`Commands/CommandHandler.cs`): command-name routing for both
  entry points, aliases, tokenising the free-text command line, the
  unknown-command reply and the catch-all error reply.
- **Bot** (`Bot.cs`): the message-received path (ignore, DM reply, command,
  chat XP) and the registered slash-command schema.
- **Text** and **Ordering**: the .NET primitives the core relies on.
  - Text covers `Trim`, `Split(' ', n)`, `ToLowerInvariant`,
    `ulong.TryParse` / `int.TryParse` and decimal printing.
  - Ordering is an `ORDER BY … DESC LIMIT n` selection.

Discord is a parameter.
- A `Gateway` value says how the ban, kick, unban or timeout request turns out
  (`Ok` or `Err(message)`).
- It also says what the channel fetch returns and whether the bulk delete
  succeeds.
- The clock (`now`) and the two random draws (the XP amount in 15..25 and the
  8-ball answer index in 0..19) are parameters too.

## Model

| member | source | states |
|---|---|---|
| Text.Utf16Length | Commands/UtilityCommands.cs:141 | `String.Length` counts UTF-16 code units: between one and two per character, and exactly one per character when none lies outside the Basic Multilingual Plane |
| Text.Utf16LengthConcat | Commands/UtilityCommands.cs:170 | the UTF-16 length of a concatenation is the sum of the parts' lengths |
| Text.IndexOf | Commands/ModerationCommands.cs:74 | finds the first occurrence of a character, or none exactly when it is absent |
| Text.NatToString | Commands/ModerationCommands.cs:59 | printing an id (the `<@{id}>` interpolation) gives canonical decimal digits whose value is the id |
| Text.PrintOfParse | Commands/ModerationCommands.cs:517-534 | a canonical digit string is what printing its value gives back (the parse/print round trip) |
| Text.ParseULong | Commands/ModerationCommands.cs:266 | `ulong.TryParse` succeeds exactly on non-empty digit strings below 2^64, and yields their value |
| Text.ParseInt32 | Commands/ModerationCommands.cs:441 | `int.TryParse` succeeds exactly on an optional sign followed by a non-empty digit string whose signed value lies in the 32-bit range, and yields that signed value |
| Text.ParseULongOfPrint | Commands/ModerationCommands.cs:525 | parsing a printed id returns that id |
| Text.ParseInt32OfPrint | Commands/ModerationCommands.cs:370 | parsing a printed 32-bit integer returns it |
| Text.Lower | Commands/CommandHandler.cs:104 | lower-casing keeps the length and maps each character independently |
| Text.LowerIsLower | Commands/CommandHandler.cs:104 | a lower-cased name has no upper-case letter, and lower-casing is idempotent |
| Text.LowerOfUpper | Commands/CommandHandler.cs:104 | lower-casing forgets any earlier upper-casing |
| Text.TrimStart | Commands/CommandHandler.cs:102 | removes exactly the leading white space: the result is a suffix, everything cut is white space, and the result starts with a non-space |
| Text.TrimEnd | Commands/CommandHandler.cs:102 | the same at the end: a prefix that ends with a non-space after cutting only white space |
| Text.Trim | Commands/CommandHandler.cs:102 | the result is a slice of the input with only white space cut off on either side, and a non-empty result neither starts nor ends with white space |
| Text.SplitN | Commands/CommandHandler.cs:103 | `Split(sep, count)`: between 1 and count parts that join back to the input; no part but the last contains the separator, and the last contains none when fewer than count parts come out |
| Text.Before | Commands/CommandHandler.cs:103 | the text before the first separator: a prefix free of the separator that is followed by the separator, or the whole text when there is none |
| Text.After | Commands/CommandHandler.cs:105 | the rest exists exactly when the separator occurs, and prefix + separator + rest is the input |
| Text.FirstSeparator | Commands/CommandHandler.cs:103-105 | a split at the first separator recovers the head and the rest |
| Text.SplitTwo | Commands/CommandHandler.cs:103-105 | `Split(c, 2)` is [Before] when c is absent and [Before, After] otherwise |
| Text.SplitThree | Commands/ModerationCommands.cs:355 | `Split(c, 3)` is given by two successive Before/After steps |
| Text.TrimUpper | Commands/CommandHandler.cs:102-104 | trimming and upper-casing commute |
| Text.BeforeSpaceUpper | Commands/CommandHandler.cs:103-104 | the first word of an upper-cased line is the upper-cased first word |
| Ordering.InsertDesc | Database.cs:191 | inserting into a descending sequence keeps it descending and adds exactly one element |
| Ordering.SortDesc | Database.cs:191 | `ORDER BY … DESC` is a permutation that is non-increasing in the key |
| Ordering.TopBy | Database.cs:191 | `ORDER BY … DESC LIMIT n`: descending, a sub-multiset of length min(n, size), everything when the limit does not bite, and nothing left out ranks above anything kept |
| Ordering.PrefixOfSorted | Database.cs:191 | a prefix of a descending sequence is descending and ranks at least as high as the rest |
| Store.GetGuildSettings | Database.cs:85-104 | settings are found exactly for stored guilds |
| Store.SetGuildSettings | Database.cs:106-117 | the upsert stores the settings for that guild and no other table or guild changes |
| Store.GetPrefix | Database.cs:119-123 | the stored prefix, or the given default for a guild without a row |
| Store.SetPrefix | Database.cs:125-135 | afterwards the guild's prefix reads back as the new one for any default; a new row gets the column defaults (spam filter off, leveling on); other guilds and tables are unchanged |
| Store.GetUserXp | Database.cs:141-161 | the stored XP and level, or 0/0 for a user without a row |
| Store.AddXp | Database.cs:163-174 | the upsert adds exactly `amount` to the pair's XP, keeps its level and touches no other row |
| Store.SetLevel | Database.cs:176-185 | updates the level of an existing row only; a missing row is left missing |
| Store.GuildUsers | Database.cs:187-208 | the users with an XP row in the guild |
| Store.SortedIds | Database.cs:187-208 | a set of ids listed once each in increasing order |
| Store.GuildRows | Database.cs:187-208 | every row of the guild, once each, in increasing user-id order |
| Store.GetLeaderboard | Database.cs:187-208 | rows of the guild by descending XP: at most `limit`, distinct users, all of them when the limit does not bite, and no left-out user has more XP than any listed one |
| Store.LogModAction | Database.cs:214-227 | appends one record with the next AUTOINCREMENT id, the given fields and "No reason provided" for a missing reason; earlier records and other tables are unchanged |
| Store.GuildActions | Database.cs:229-254 | exactly the guild's records |
| Store.GuildActionsCount | Database.cs:229-254 | the guild filter keeps each of the guild's records as often as it occurs in the log, and no other record |
| Store.GuildActionsAppend | Database.cs:229-254 | filtering keeps log order: appending a record appends it to its guild's list and changes no other guild's |
| Store.GetModActions | Database.cs:229-254 | a sub-multiset of the guild's records, by descending timestamp, with min(limit, n) rows (all n when the limit is negative): no record is repeated beyond its occurrences, all are listed when the limit does not bite, and none left out is newer than a listed one |
| Store.CountIsGroupSize | Database.cs:256-280 | the per-type count is the size of the `GROUP BY action_type` group |
| Store.GetModStats | Database.cs:256-280 | bans, kicks and timeouts are the sizes of the moderator's groups in the guild |
| Store.StatsAfterLog | Database.cs:214-280 | logging an action adds one to its type's count for that moderator and guild (none for an unban) and leaves other pairs alone |
| Store.StatsExample | Database.cs:256-280 | two bans, a kick and an unban read back as 2 bans, 1 kick and 0 timeouts |
| Store.StatsTotalExcludesUnbans | Database.cs:256-280 | the three reported counts plus the unbans are all of the moderator's records in the guild |
| Store.GetSpamWarnings | Database.cs:301-311 | the stored count, or 0 without a row |
| Store.AddSpamWarning | Database.cs:286-299 | the count goes up by one, is returned, and is stamped with the time; other rows are unchanged |
| Store.ResetSpamWarnings | Database.cs:313-321 | the pair's row is deleted and reads 0; other rows are unchanged |
| Store.SpamWarningsRestart | Database.cs:286-321 | after a reset the next warning counts 1 and the one after it 2 |
| Leveling.ISqrt | Bot.cs:195 | the integer square root: r² ≤ n < (r+1)² |
| Leveling.LevelFor | Bot.cs:195 | the level is the unique l with l²·100 ≤ xp < (l+1)²·100 |
| Leveling.LevelUnique | Bot.cs:195 | any l with l²·100 ≤ xp < (l+1)²·100 is the level |
| Leveling.LevelExamples | Bot.cs:195 | 0 and 99 XP are level 0, 100 is level 1, 400 is level 2, 10000 is level 10 |
| Leveling.LevelMonotone | Bot.cs:195 | more XP never means a lower level |
| Leveling.AwardXp | Bot.cs:191-202 | chat adds exactly the drawn amount; the stored level never drops; a level-up is announced exactly when the stored level rises, and then it is the computed level |
| Leveling.AwardKeepsReconciled | Bot.cs:191-202 | if the stored level matched the XP before, it matches after |
| Leveling.AwardKeepsValid | Bot.cs:191-202 | awarding XP keeps XP and levels non-negative |
| Leveling.ChatXp | Bot.cs:188-202 | a guild with leveling switched off gets no XP; otherwise the award applies |
| Effects.Mention | Commands/UtilityCommands.cs:261 | a user mention is `<@` … `>` |
| Moderation.ParseUserMention | Commands/ModerationCommands.cs:517-534 | a non-zero result is the value of the digits the text spells, as `<@id>`, `<@!id>` or bare digits |
| Moderation.MentionComplete | Commands/ModerationCommands.cs:517-534 | every such spelling of an id below 2^64 parses to that id |
| Moderation.MentionRoundTrip | Commands/ModerationCommands.cs:517-534 | `<@id>`, `<@!id>` and the bare id all parse back to the id |
| Moderation.UnbanRejectsMention | Commands/ModerationCommands.cs:266 | free-text unban wants a raw id: a mention never parses as one |
| Moderation.Enforce | Commands/ModerationCommands.cs:43-66 | one Discord request and one post; on success the record is appended and the confirmation posted; on failure nothing is logged and the failure is posted |
| Moderation.BanText | Commands/ModerationCommands.cs:69-114 | outside a guild nothing happens; no first word asks for a user; an unparseable mention is refused; otherwise the ban is requested and logged only if it succeeds |
| Moderation.BanSlash | Commands/ModerationCommands.cs:25-67 | a missing user asks for one; a non-member user throws; outside a guild the server-only reply; otherwise the ban with the optional reason |
| Moderation.KickText | Commands/ModerationCommands.cs:164-210 | as for ban, but the target must be found among the guild's members (a non-zero id, since the platform has no user 0), otherwise "user not found" |
| Moderation.KickSlash | Commands/ModerationCommands.cs:120-162 | as for slash ban, with the kick texts |
| Moderation.UnbanText | Commands/ModerationCommands.cs:260-298 | the first word must parse as a raw id, otherwise the valid-id reply; then the unban is requested and logged on success |
| Moderation.UnbanSlash | Commands/ModerationCommands.cs:216-258 | always replies: a missing or unparseable id asks for a valid one; outside a guild the server-only reply; otherwise the unban |
| Moderation.TimeoutText | Commands/ModerationCommands.cs:350-402 | needs a user and minutes; a non-member is refused; non-positive or unparseable minutes get the invalid-duration reply; otherwise the timeout is requested and logged with the minutes in the reason |
| Moderation.TimeoutSlash | Commands/ModerationCommands.cs:304-348 | a missing user asks for one; a non-member throws; otherwise the timeout for the given (default 5) minutes |
| Moderation.Recent | Commands/ModerationCommands.cs:426 | keeps exactly the fetched messages younger than 14 days |
| Moderation.RecentCount | Commands/ModerationCommands.cs:426 | the filter keeps each young message as often as it was fetched, and drops every old one |
| Moderation.RecentAppend | Commands/ModerationCommands.cs:426 | the filter keeps fetch order: filtering two batches is filtering each in turn |
| Moderation.TextReason | Commands/ModerationCommands.cs:88 | the free-text reason is everything after the first space, or "No reason provided" when there is no space |
| Moderation.SlashReason | Commands/ModerationCommands.cs:28 | the slash reason is the option's value, or "No reason provided" when it is missing |
| Moderation.TimeoutLogReason | Commands/ModerationCommands.cs:388 | the logged reason is the reason followed by the minutes in parentheses, and parsing the number back out gives the minutes |
| Moderation.Sweep | Commands/ModerationCommands.cs:423-429 | fetches count + 1 messages, then bulk-deletes the recent ones; a failed fetch stops there |
| Moderation.TextCleanCount | Commands/ModerationCommands.cs:439-445 | default 10; a parsed count is capped at 100 |
| Moderation.CleanText | Commands/ModerationCommands.cs:435-461 | outside a text channel nothing happens; otherwise the sweep and "Deleted n messages" with n the number deleted, or the failure |
| Moderation.CleanSlash | Commands/ModerationCommands.cs:408-433 | count capped at 100; outside a text channel an ephemeral refusal; otherwise the sweep, reporting one fewer than deleted |
| Moderation.StatsSubject | Commands/ModerationCommands.cs:496-501 | the mentioned user, or the author when there is no parseable mention |
| Moderation.ModStatsText | Commands/ModerationCommands.cs:491-513 | in a guild, posts the subject's stats read from the log; never writes |
| Moderation.ModStatsSlash | Commands/ModerationCommands.cs:467-489 | server-only outside a guild; otherwise the chosen moderator's (or the caller's) stats |
| Moderation.BanCountsInStats | Commands/ModerationCommands.cs:69-114 | a successful free-text ban raises that moderator's ban count in the guild by one |
| Moderation.EnforceKeepsValid | Database.cs:214-227 | logging through an enforcement keeps the log ids consecutive |
| Utility.HelpPrefix | Commands/UtilityCommands.cs:66-95 | free-text help quotes the guild's prefix, or the default |
| Utility.PrefixSlash | Commands/UtilityCommands.cs:137-156 | a missing or empty prefix, or one longer than 5 UTF-16 code units, is refused; outside a guild the server-only reply; otherwise the prefix is stored and confirmed |
| Utility.PrefixText | Commands/UtilityCommands.cs:158-178 | no argument shows the current prefix; one longer than 5 UTF-16 code units is refused; otherwise it is stored; the database changes only then |
| Utility.PrefixTakesEffect | Commands/UtilityCommands.cs:158-178 | after a successful prefix change, help reports the new prefix |
| Utility.PrefixCountsUtf16Units | Commands/UtilityCommands.cs:141-170 | three characters outside the Basic Multilingual Plane are six code units, so both prefix commands refuse them without writing |
| Utility.Wrap32 | Commands/UtilityCommands.cs:197 | 32-bit two's-complement wrap-around: in range, congruent mod 2^32, identity in range |
| Utility.Wrap64 | Commands/UtilityCommands.cs:198 | the same for 64 bits |
| Utility.TruncDiv | Commands/UtilityCommands.cs:198 | C# integer division truncates toward zero: for a non-negative dividend the quotient is non-negative with remainder in [0, b), for a negative one it is non-positive with remainder in (-b, 0] |
| Utility.ProgressOverflows | Commands/UtilityCommands.cs:197-199 | at 4294180900 XP (level 6553) the progress computed with 32-bit arithmetic is 819025 percent |
| Utility.ScaledQuotient | Commands/UtilityCommands.cs:198 | (x·100)/(n·100) is the whole number of n's in x |
| Utility.ProgressAsWritten | Commands/UtilityCommands.cs:197-199 | the progress as the source computes it, with the 32-bit wrap of `nextLevel * nextLevel * 100` and the `(int)` cast: always a 32-bit value |
| Utility.ProgressAgrees | Commands/UtilityCommands.cs:197-199 | up to level 4633, whenever the exact progress fits in 32 bits, the wrapping computation gives the exact one |
| Utility.Progress | Commands/UtilityCommands.cs:197-199 | with unbounded integers, progress is the whole number of (level+1)² in the XP, that is, the XP as a percentage of what the next level needs; 0 when level+1 is 0 |
| Utility.ProgressInRange | Commands/UtilityCommands.cs:197-199 | for a user whose level matches their XP, progress is between 0 and 99 percent |
| Utility.XpSubject | Commands/UtilityCommands.cs:214-219 | the mentioned user, or the author |
| Utility.XpReport | Commands/UtilityCommands.cs:201-206 | the XP report opens with the stats header and the user's mention and closes with the progress percentage |
| Utility.XpReportFor | Commands/UtilityCommands.cs:196-206 | the report for the stored row; when the row's level matches its XP, the percentage shown is between 0 and 99 |
| Utility.XpReportAsWritten | Commands/UtilityCommands.cs:196-206 | for a reconciled row up to level 4633, the report is exactly the one the wrapping arithmetic would post |
| Utility.XpText | Commands/UtilityCommands.cs:209-232 | in a guild, posts the subject's XP, level and progress; never writes |
| Utility.XpSlash | Commands/UtilityCommands.cs:184-207 | server-only outside a guild; a non-member user throws; otherwise that user's (or the caller's) report |
| Utility.Medal | Commands/UtilityCommands.cs:253-259 | medals for the first three places only |
| Utility.EntryLine | Commands/UtilityCommands.cs:261 | an entry line starts with the medal, the 1-based rank and the mention, and ends with a newline; from the fourth place on it starts with a space |
| Utility.EntryLines | Commands/UtilityCommands.cs:251-262 | one line per entry, the i-th being entry i's line with rank i+1 |
| Utility.Lines | Commands/UtilityCommands.cs:251-262 | the entries' lines in order, from a given entry on, each with its own rank |
| Utility.RenderLeaderboard | Commands/UtilityCommands.cs:249-267 | the header followed by every entry's line in rank order; "No one has earned XP yet~" exactly when there are none |
| Utility.LeaderboardText | Commands/UtilityCommands.cs:272-300 | in a guild, posts the top 10 rendered; never writes |
| Utility.LeaderboardSlash | Commands/UtilityCommands.cs:238-270 | server-only outside a guild; otherwise the top 10 rendered |
| Utility.EmptyGuildLeaderboard | Commands/UtilityCommands.cs:264-265 | a guild without XP rows gets the header and the "no one yet" line |
| Utility.ParseUserMention | Commands/UtilityCommands.cs:304-319 | a non-zero result is the value of the digits the text spells, as `<@id>`, `<@!id>` or bare digits |
| Utility.MentionParsersAgree | Commands/UtilityCommands.cs:304-319 | the utility copy of the mention parser agrees with the moderation one on every input |
| Fun.MoodOf | Commands/FunCommands.cs:13-40 | the first ten answers are positive, the last five negative |
| Fun.AnswersDistinct | Commands/FunCommands.cs:13-40 | no answer appears twice |
| Fun.Reply | Commands/FunCommands.cs:49-53 | the reply starts with the question block and ends with the picked answer and the sign-off |
| Fun.ReplyDeterminesAnswer | Commands/FunCommands.cs:49-53 | for one question, the reply determines which answer was picked |
| Fun.EightBallSlash | Commands/FunCommands.cs:44-54 | always answers publicly, with the question or "..." |
| Fun.EightBallText | Commands/FunCommands.cs:56-71 | an empty question gets the ask-a-question reply, exactly then; otherwise the answer |
| Router.SlashRoute | Commands/CommandHandler.cs:37-87 | a slash name routes only to the command of that name |
| Router.TextRoute | Commands/CommandHandler.cs:109-160 | a free-text name routes only to the command of that name or one of its aliases |
| Router.RoutesComplete | Commands/CommandHandler.cs:37-160 | every command is reachable by its name on both paths and by each alias on the free-text path |
| Router.SlashRouteExact | Commands/CommandHandler.cs:37-87 | slash routing to a command holds exactly for its name |
| Router.TextRouteExact | Commands/CommandHandler.cs:109-160 | free-text routing holds exactly for the name and the aliases (`level`, `rank`, `lb`, `top`, `modstats`) |
| Router.TextRouteExtendsSlash | Commands/CommandHandler.cs:37-160 | every slash name means the same command on the free-text path |
| Router.ParseCommandLine | Commands/CommandHandler.cs:102-105 | the name is the lower-cased first word of the trimmed line, and the arguments are the rest or empty |
| Router.NameIgnoresCase | Commands/CommandHandler.cs:102-104 | upper-casing the line routes to the same command |
| Router.ParseCommandLineOf | Commands/CommandHandler.cs:102-105 | `name args` tokenises back to the lower-cased name and the arguments |
| Router.TrimOfTrimmed | Commands/CommandHandler.cs:102 | trimming a string without outer white space changes nothing |
| Router.RunText | Commands/CommandHandler.cs:109-160 | a free-text command leaves XP and spam alone; only `prefix` changes settings; only a successful ban, kick, unban or timeout appends to the log |
| Router.HandleText | Commands/CommandHandler.cs:100-166 | an unknown name does nothing; a known one runs its handler |
| Router.RunSlash | Commands/CommandHandler.cs:37-83 | a slash command that replies has the same effect bounds as on the free-text path |
| Router.ModerationSlash | Commands/CommandHandler.cs:59-77 | the moderation group's effect bounds |
| Router.EnforcementSlash | Commands/CommandHandler.cs:60-71 | ban, kick, unban and timeout log at most one record, and only on success |
| Router.OtherSlash | Commands/CommandHandler.cs:39-57 | the utility and fun commands never log, and only `prefix` changes settings |
| Router.HandleSlash | Commands/CommandHandler.cs:33-98 | an unknown name gets "Unknown command~"; a thrown handler gets "Something went wrong~"; every call posts at least once |
| Router.CommandKeepsValid | Database.cs:214-227 | a command's effect keeps the database well formed |
| Bot.Classify | Bot.cs:163-184 | bot and system messages are ignored; DMs get the DM reply; in a guild text channel, prefixed messages are commands and the rest is chat |
| Bot.HasStringPrefix | Bot.cs:181 | a message has the prefix exactly when it is non-empty and starts with the prefix |
| Bot.CommandBody | Bot.cs:178-183 | the command body is what follows the prefix |
| Bot.ChatReply | Bot.cs:186-203 | chat XP is awarded, and the level-up message is posted exactly when the level rises |
| Bot.LevelUpText | Bot.cs:200-201 | the level-up message opens with the congratulations and the author's mention and closes with the new level in bold |
| Bot.LevelUpTextNamesLevel | Bot.cs:200-201 | two level-up messages for the same user are equal only for the same level, so the message names the level reached |
| Bot.CommandReply | Bot.cs:181-184 | a command message is routed through the free-text handler and earns no XP |
| Bot.MessageReceived | Bot.cs:163-205 | dispatches on the message kind and keeps the database well formed |
| Bot.CommandValid | Bot.cs:181-184 | a command keeps the database well formed |
| Bot.MessageRatchet | Bot.cs:186-203 | no message lowers a level; XP changes only for chat, only for the author in that guild, only with leveling on, and only by the drawn amount |
| Bot.SpecOf | Bot.cs:76-147 | a schema lookup finds the registered command of that name, or none |
| Bot.Find | Bot.cs:76-147 | the same search from a position |
| Bot.Names | Bot.cs:94-146 | the required (or optional) option names of a command |
| Bot.SchemaMatchesRoutes | Bot.cs:76-147 | every command is registered, every registered name routes, and names are unique |
| Bot.SchemaOptions | Bot.cs:91-146 | the registered required and optional options per command |
| Bot.SchemaRulesOutDefaults | Bot.cs:97-146 | with the registered options present, slash ban never asks for a user and 8-ball never falls back to "..." |

## Left out

- Discord I/O is left out: sockets, slash-command registration (`Bot.cs:149-160`), the 3-second `Task.Delay` before the clean confirmation is deleted, and console logging. Only the requests and posts each handler makes are modelled.
- `Config.cs` and `Program.cs` are left out: loading configuration and start-up. The default prefix and the DM message are `Config` parameters.
- The `auto_clean_config` table (`Database.cs:52-60`) is left out: no operation of the core reads or writes it.
- Randomness (`Random.Next`) is left out. The XP amount and the 8-ball pick are parameters, constrained to the ranges `Next(15, 26)` and `Next(20)` produce.
- Leveling.LevelFor: `(int)Math.Sqrt(xp / 100.0)` in floating point is replaced by the exact integer square root. The two agree for every XP below 7036876095488098. At 7036876095488098 and 7036876095488099 the double square root rounds up, so the floating-point computation gives 8388609 and the integer root 8388608.
- Text.Lower: `ToLowerInvariant` is modelled on ASCII letters only. Other scripts' case mappings are not modelled.
- Text.ParseULong: `ulong.TryParse` is modelled as non-empty ASCII digits below 2^64. Surrounding white space, a leading sign (`+`, or `-` on a zero value such as `-0`) and culture-specific digits are not accepted.
- Text.ParseInt32: `int.TryParse` is modelled as an optional sign and ASCII digits. Surrounding white space is not accepted.
- Utility.XpText: posts the exact progress (`Utility.Progress`) rather than the 32-bit computation of `Commands/UtilityCommands.cs:222-224`. By `Utility.XpReportAsWritten` the two posts are equal for a row whose level matches its XP, up to level 4633. Above that level the source wraps (see Findings), and for a row whose stored level does not match its XP the source's `(int)` cast may also wrap.
- Utility.XpSlash: posts the exact progress rather than the 32-bit computation of `Commands/UtilityCommands.cs:197-199`, with the same agreement and the same exceptions as `Utility.XpText`.
- Store.GetLeaderboard: SQLite leaves the order of equal-XP rows unspecified. The model lists ties by ascending user id.
- Store.GetModActions: the order of equal timestamps is likewise fixed by the model's selection.
- Moderation.Recent: `TotalDays < 14` is compared in whole seconds (`now - timestamp < 14·86400`).
- Moderation.Sweep: a fetch failure and a delete failure are distinct outcomes. The exception texts are opaque strings chosen by the gateway.
- Posts are assumed to succeed. In the source, a confirmation that fails to send after `LogModAction` has run lands in the catch block (`Commands/ModerationCommands.cs:43-66`), so the action is logged and "Failed to …" is posted as well; the model does not produce that outcome. Only the gateway request (ban, kick, timeout, fetch, delete) can fail in the model.
- A failed slash-command reply inside the catch block (`CommandHandler.cs:92-96`) is not modelled; the second `RespondAsync` is assumed to succeed. The free-text catch (`CommandHandler.cs:162-165`) only logs to the console, so it is not modelled either.
- The free-text handlers' `guild == null` branches cannot be reached from `Bot.cs`, which only routes guild text-channel messages. They are modelled but never exercised by `Bot.MessageReceived`.
- Spam filtering is left out: spam warnings are stored by `Database.cs`, but no handler in the source issues them. The spam operations are modelled only as database operations.

## Findings

| source | as written | input that shows it | evidently intended | confidence | as-written member | corrected member |
|---|---|---|---|---|---|---|
| Commands/UtilityCommands.cs:197-199 | `nextLevel * nextLevel * 100` is computed in 32-bit `int`, so it wraps for levels from 4634 upward | a user with 4294180900 XP (level 6553): (6554²)·100 wraps to 524304, and progress shows 819025% | progress to the next level is a percentage between 0 and 99 | not executed | Utility.ProgressOverflows | Utility.ProgressInRange |

The same expression appears at `Commands/UtilityCommands.cs:222-224` in the free-text `xp` command.
- `Utility.ProgressAsWritten` models the wrapping arithmetic.
- `Utility.Progress` computes with unbounded integers.
- The XP reports (`Utility.XpReportFor`) use the corrected `Utility.Progress`.

Apart from the progress computation above, where the code and the written behaviour of the bot differ, the model follows the code:
- slash `clean` reports one fewer message than it deleted, while free-text `clean` reports the exact number;
- an empty slash prefix gets the "too long" text;
- slash `timeout` does not check that the minutes are positive, while free-text `timeout` does;
- the free-text timeout confirmation has no reason line;
- a user option naming someone who is not a guild member makes the slash handler throw, so the reply is "Something went wrong~".
