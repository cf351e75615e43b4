/** The bot's SQLite database (Database.cs) as an immutable value.  Each
    table is a map keyed by its primary key, except the append-only
    moderation log, which is a sequence in insertion order.  Every SQL
    statement becomes a pure function from the old database to the new one
    (or to the rows it reads). */
module Store {
  import opened Wrappers
  import opened Text
  import Ordering

  /** Stored in place of a missing moderation reason. */
  const NO_REASON: string := "No reason provided"

  datatype GuildSettings = GuildSettings(prefix: string, spamFilterEnabled: bool, levelingEnabled: bool)

  /** One row of `user_xp`, without its key. */
  datatype XpRow = XpRow(xp: int, level: int)

  /** The `UserXp` record the queries hand back. */
  datatype UserXp = UserXp(userId: Id, guildId: Id, xp: int, level: int)

  datatype ActionKind = Ban | Kick | Unban | Timeout

  datatype ModAction = ModAction(
    id: nat, guildId: Id, moderatorId: Id, targetId: Id,
    kind: ActionKind, reason: string, timestamp: int)

  datatype SpamRow = SpamRow(warnings: int, lastWarning: int)

  /** The per-moderator counts `GetModStats` returns. */
  datatype ModStats = ModStats(bans: nat, kicks: nat, timeouts: nat)

  /** Composite primary key (user, guild). */
  type UserGuild = (Id, Id)

  datatype Db = Db(
    guilds: map<Id, GuildSettings>,
    xp: map<UserGuild, XpRow>,
    modLog: seq<ModAction>,
    spam: map<UserGuild, SpamRow>)

  const EmptyDb: Db := Db(map[], map[], [], map[])

  /** What every reachable database satisfies: XP and levels are never
      negative, and the log's AUTOINCREMENT ids count up from 1. */
  predicate Valid(db: Db) {
    && (forall k :: k in db.xp ==> db.xp[k].xp >= 0 && db.xp[k].level >= 0)
    && (forall i :: 0 <= i < |db.modLog| ==> db.modLog[i].id == i + 1)
  }

  // ---------------------------------------------------------------------
  // guild_settings

  function GetGuildSettings(db: Db, g: Id): (r: Option<GuildSettings>)
    ensures r.Some? <==> g in db.guilds
    ensures r.Some? ==> r.value == db.guilds[g]
  {
    if g in db.guilds then Some(db.guilds[g]) else None
  }

  /** `INSERT OR REPLACE`: afterwards the guild reads back exactly `s`,
      whether or not it had a row, and no other row or table changes. */
  function SetGuildSettings(db: Db, g: Id, s: GuildSettings): (r: Db)
    ensures GetGuildSettings(r, g) == Some(s)
    ensures forall h :: h != g ==> GetGuildSettings(r, h) == GetGuildSettings(db, h)
    ensures r.xp == db.xp && r.modLog == db.modLog && r.spam == db.spam
  {
    db.(guilds := db.guilds[g := s])
  }

  /** The guild's prefix, or `defaultPrefix` when it has no settings row. */
  function GetPrefix(db: Db, g: Id, defaultPrefix: string): (p: string)
    ensures g in db.guilds ==> p == db.guilds[g].prefix
    ensures g !in db.guilds ==> p == defaultPrefix
  {
    match GetGuildSettings(db, g)
    case Some(s) => s.prefix
    case None => defaultPrefix
  }

  /** Changes only the prefix; a guild without a row gets one with the
      spam filter off and leveling on. */
  function SetPrefix(db: Db, g: Id, prefix: string): (r: Db)
    ensures forall d :: GetPrefix(r, g, d) == prefix
    ensures g !in db.guilds ==> GetGuildSettings(r, g) == Some(GuildSettings(prefix, false, true))
    ensures g in db.guilds ==> GetGuildSettings(r, g) == Some(db.guilds[g].(prefix := prefix))
    ensures forall h :: h != g ==> GetGuildSettings(r, h) == GetGuildSettings(db, h)
    ensures r.xp == db.xp && r.modLog == db.modLog && r.spam == db.spam
  {
    var current := GetGuildSettings(db, g).GetOr(GuildSettings(".", false, true));
    SetGuildSettings(db, g, current.(prefix := prefix))
  }

  // ---------------------------------------------------------------------
  // user_xp

  /** The row for (u, g), or xp = 0 and level = 0 when there is none. */
  function GetUserXp(db: Db, u: Id, g: Id): (r: UserXp)
    ensures r.userId == u && r.guildId == g
    ensures (u, g) in db.xp ==> r.xp == db.xp[(u, g)].xp && r.level == db.xp[(u, g)].level
    ensures (u, g) !in db.xp ==> r.xp == 0 && r.level == 0
  {
    if (u, g) in db.xp then UserXp(u, g, db.xp[(u, g)].xp, db.xp[(u, g)].level)
    else UserXp(u, g, 0, 0)
  }

  /** Every key other than `k` has the same row (or the same absence of a
      row) in both tables. */
  ghost predicate SameXpExcept(a: map<UserGuild, XpRow>, b: map<UserGuild, XpRow>, k: UserGuild) {
    forall k' :: k' != k ==> (k' in a <==> k' in b) && (k' in a ==> a[k'] == b[k'])
  }

  /** `INSERT … ON CONFLICT DO UPDATE SET xp = xp + amount`: the row exists
      afterwards, its XP grew by `amount` (from 0 for a new row), its level
      is kept (0 for a new row), and nothing else changes. */
  function AddXp(db: Db, u: Id, g: Id, amount: int): (r: Db)
    ensures (u, g) in r.xp
    ensures GetUserXp(r, u, g).xp == GetUserXp(db, u, g).xp + amount
    ensures GetUserXp(r, u, g).level == GetUserXp(db, u, g).level
    ensures SameXpExcept(r.xp, db.xp, (u, g))
    ensures r.guilds == db.guilds && r.modLog == db.modLog && r.spam == db.spam
  {
    var row := if (u, g) in db.xp then db.xp[(u, g)].(xp := db.xp[(u, g)].xp + amount)
               else XpRow(amount, 0);
    db.(xp := db.xp[(u, g) := row])
  }

  /** `UPDATE … SET level`: changes only the level of an existing row and
      does nothing when the row is missing. */
  function SetLevel(db: Db, u: Id, g: Id, level: int): (r: Db)
    ensures (u, g) in db.xp ==> GetUserXp(r, u, g) == GetUserXp(db, u, g).(level := level)
    ensures (u, g) !in db.xp ==> r == db
    ensures r.xp.Keys == db.xp.Keys
    ensures SameXpExcept(r.xp, db.xp, (u, g))
    ensures r.guilds == db.guilds && r.modLog == db.modLog && r.spam == db.spam
  {
    if (u, g) in db.xp then db.(xp := db.xp[(u, g) := db.xp[(u, g)].(level := level)])
    else db
  }

  /** The `UserXp` record of an existing key. */
  function RowOf(db: Db, k: UserGuild): (r: UserXp)
    requires k in db.xp
    ensures r == GetUserXp(db, k.0, k.1)
  {
    UserXp(k.0, k.1, db.xp[k].xp, db.xp[k].level)
  }

  /** `x` is a row of guild `g` exactly as stored. */
  predicate IsGuildRow(db: Db, g: Id, x: UserXp) {
    x.guildId == g && (x.userId, g) in db.xp && x == RowOf(db, (x.userId, g))
  }

  function XpKey(x: UserXp): int {
    x.xp
  }

  /** The users that have a row in guild `g`. */
  function GuildUsers(db: Db, g: Id): (r: set<Id>)
    ensures forall u :: u in r <==> (u, g) in db.xp
  {
    set k | k in db.xp && k.1 == g :: k.0
  }

  predicate IsLeast(m: Id, s: set<Id>) {
    forall y :: y in s ==> m <= y
  }

  /** A non-empty set of ids has a least element. */
  lemma {:induction false} LeastExists(s: set<Id>)
    requires s != {}
    ensures exists m :: m in s && IsLeast(m, s)
    decreases |s|
  {
    var x :| x in s;
    if s == {x} {
      assert IsLeast(x, s);
    } else {
      var rest := s - {x};
      LeastExists(rest);
      var m :| m in rest && IsLeast(m, rest);
      var least := if x < m then x else m;
      forall y | y in s
        ensures least <= y
      {
        if y != x {
          assert y in rest;
        }
      }
      assert least in s && IsLeast(least, s);
    }
  }

  function Least(s: set<Id>): (m: Id)
    requires s != {}
    ensures m in s && IsLeast(m, s)
  {
    LeastExists(s);
    var m :| m in s && IsLeast(m, s);
    m
  }

  /** The ids of `s` in increasing order. */
  function SortedIds(s: set<Id>): (r: seq<Id>)
    ensures |r| == |s|
    ensures forall x :: x in r <==> x in s
    ensures forall i, j :: 0 <= i < j < |r| ==> r[i] < r[j]
    decreases |s|
  {
    if s == {} then []
    else
      var m := Least(s);
      var rest := SortedIds(s - {m});
      SortedCons(m, s, rest);
      [m] + rest
  }

  /** Putting the least element in front of the sorted rest sorts the set. */
  lemma SortedCons(m: Id, s: set<Id>, rest: seq<Id>)
    requires m in s && IsLeast(m, s)
    requires forall x :: x in rest <==> x in s - {m}
    requires forall i, j :: 0 <= i < j < |rest| ==> rest[i] < rest[j]
    ensures forall x :: x in [m] + rest <==> x in s
    ensures forall i, j :: 0 <= i < j < |[m] + rest| ==> ([m] + rest)[i] < ([m] + rest)[j]
  {
    var r := [m] + rest;
    forall i, j | 0 <= i < j < |r|
      ensures r[i] < r[j]
    {
      if i == 0 {
        assert r[j] == rest[j - 1] && r[j] in s - {m};
      } else {
        assert r[i] == rest[i - 1] && r[j] == rest[j - 1];
      }
    }
  }

  /** Every row of guild `g`, once each, by increasing user id (the order in
      which rows of equal XP come out of the leaderboard query; SQLite
      leaves that order unspecified). */
  function GuildRows(db: Db, g: Id): (rows: seq<UserXp>)
    ensures forall i :: 0 <= i < |rows| ==> IsGuildRow(db, g, rows[i])
    ensures forall u :: (u, g) in db.xp ==> RowOf(db, (u, g)) in rows
    ensures forall i, j :: 0 <= i < j < |rows| ==> rows[i].userId < rows[j].userId
  {
    var ids := SortedIds(GuildUsers(db, g));
    var rows := RowsFor(db, g, ids);
    RowsCover(db, g, ids, rows);
    rows
  }

  /** Rows listed by strictly increasing ids of every user of the guild
      cover the guild and keep the order. */
  lemma RowsCover(db: Db, g: Id, ids: seq<Id>, rows: seq<UserXp>)
    requires forall u :: u in ids <==> (u, g) in db.xp
    requires forall i, j :: 0 <= i < j < |ids| ==> ids[i] < ids[j]
    requires |rows| == |ids|
    requires forall i :: 0 <= i < |rows| ==> rows[i] == RowOf(db, (ids[i], g))
    ensures forall u :: (u, g) in db.xp ==> RowOf(db, (u, g)) in rows
    ensures forall i, j :: 0 <= i < j < |rows| ==> rows[i].userId < rows[j].userId
  {
    forall u | (u, g) in db.xp
      ensures RowOf(db, (u, g)) in rows
    {
      var i :| 0 <= i < |ids| && ids[i] == u;
      assert rows[i] == RowOf(db, (u, g));
    }
  }

  /** The stored rows of the listed users of guild `g`, in list order. */
  function RowsFor(db: Db, g: Id, ids: seq<Id>): (rows: seq<UserXp>)
    requires forall i :: 0 <= i < |ids| ==> (ids[i], g) in db.xp
    ensures |rows| == |ids|
    ensures forall i :: 0 <= i < |rows| ==> rows[i] == RowOf(db, (ids[i], g))
    ensures forall i :: 0 <= i < |rows| ==> IsGuildRow(db, g, rows[i])
  {
    if |ids| == 0 then [] else [RowOf(db, (ids[0], g))] + RowsFor(db, g, ids[1..])
  }

  /** What `SELECT … WHERE guild_id = g ORDER BY xp DESC LIMIT limit`
      returns: rows of that guild only, exactly as stored, one per user,
      highest XP first, at most `limit` of them (all of them when the limit
      allows, or when it is negative), and no row left out has more XP than
      a row returned. */
  ghost predicate IsLeaderboard(db: Db, g: Id, limit: int, top: seq<UserXp>) {
    && (forall i :: 0 <= i < |top| ==> IsGuildRow(db, g, top[i]))
    && Ordering.NonIncreasing(top, XpKey)
    && (0 <= limit ==> |top| <= limit)
    && (forall i, j :: 0 <= i < j < |top| ==> top[i].userId != top[j].userId)
    && (limit < 0 || |top| < limit ==>
          forall u :: (u, g) in db.xp ==> RowOf(db, (u, g)) in top)
    && (forall u :: (u, g) in db.xp && RowOf(db, (u, g)) !in top ==>
          forall i :: 0 <= i < |top| ==> top[i].xp >= db.xp[(u, g)].xp)
  }

  function GetLeaderboard(db: Db, g: Id, limit: int): (top: seq<UserXp>)
    ensures IsLeaderboard(db, g, limit, top)
  {
    var rows := GuildRows(db, g);
    var top := Ordering.TopBy(rows, XpKey, limit);
    LeaderboardRows(db, g, limit, rows, top);
    top
  }

  /** What the leaderboard inherits from the guild's rows and from `TopBy`. */
  lemma LeaderboardRows(db: Db, g: Id, limit: int, rows: seq<UserXp>, top: seq<UserXp>)
    requires forall i :: 0 <= i < |rows| ==> IsGuildRow(db, g, rows[i])
    requires forall u :: (u, g) in db.xp ==> RowOf(db, (u, g)) in rows
    requires forall i, j :: 0 <= i < j < |rows| ==> rows[i].userId < rows[j].userId
    requires top == Ordering.TopBy(rows, XpKey, limit)
    ensures IsLeaderboard(db, g, limit, top)
  {
    Ordering.DistinctNoDuplicates(rows);
    Ordering.SubMultisetMembers(top, rows);
    Ordering.NoDuplicatesSub(top, rows);
    DistinctUsers(db, g, top);
    if limit < 0 || |top| < limit {
      Ordering.SubMultisetMembers(rows, top);
    }
  }

  /** Rows of one guild without duplicates belong to distinct users. */
  lemma DistinctUsers(db: Db, g: Id, top: seq<UserXp>)
    requires Ordering.NoDuplicates(top)
    requires forall i :: 0 <= i < |top| ==> IsGuildRow(db, g, top[i])
    ensures forall i, j :: 0 <= i < j < |top| ==> top[i].userId != top[j].userId
  {
    forall i, j | 0 <= i < j < |top|
      ensures top[i].userId != top[j].userId
    {
      Ordering.NoDuplicatesDistinct(top, i, j);
    }
  }

  // ---------------------------------------------------------------------
  // mod_actions

  /** Appends exactly one record, with the next AUTOINCREMENT id and the
      fixed reason when none is given; earlier records are untouched. */
  function LogModAction(db: Db, g: Id, moderator: Id, target: Id, kind: ActionKind,
                        reason: Option<string>, timestamp: int): (r: Db)
    ensures |r.modLog| == |db.modLog| + 1
    ensures r.modLog[..|db.modLog|] == db.modLog
    ensures var a := r.modLog[|db.modLog|];
            a.guildId == g && a.moderatorId == moderator && a.targetId == target
            && a.kind == kind && a.timestamp == timestamp
    ensures r.modLog[|db.modLog|].reason == if reason.Some? then reason.value else NO_REASON
    ensures Valid(db) ==> Valid(r)
    ensures r.guilds == db.guilds && r.xp == db.xp && r.spam == db.spam
  {
    var a := ModAction(|db.modLog| + 1, g, moderator, target, kind, reason.GetOr(NO_REASON), timestamp);
    db.(modLog := db.modLog + [a])
  }

  /** The records of guild `g`, in log order. */
  function GuildActions(log: seq<ModAction>, g: Id): (r: seq<ModAction>)
    ensures forall a :: a in r <==> a in log && a.guildId == g
  {
    if |log| == 0 then []
    else
      var rest := GuildActions(log[1..], g);
      assert forall a :: a in log <==> a == log[0] || a in log[1..];
      if log[0].guildId == g then [log[0]] + rest else rest
  }

  /** The guild's records keep their multiplicity: each of them occurs as
      often as in the log, and no other record occurs. */
  lemma {:induction false} GuildActionsCount(log: seq<ModAction>, g: Id)
    ensures forall a :: multiset(GuildActions(log, g))[a] == if a.guildId == g then multiset(log)[a] else 0
    decreases |log|
  {
    if |log| > 0 {
      GuildActionsCount(log[1..], g);
      assert log == [log[0]] + log[1..];
      assert multiset(log) == multiset{log[0]} + multiset(log[1..]);
    }
  }

  /** The guild's records keep their log order: a record appended to the
      log comes last among them. */
  lemma {:induction false} GuildActionsAppend(log: seq<ModAction>, a: ModAction, g: Id)
    ensures GuildActions(log + [a], g) == GuildActions(log, g) + (if a.guildId == g then [a] else [])
    decreases |log|
  {
    var tail := if a.guildId == g then [a] else [];
    if |log| == 0 {
      assert log + [a] == [a];
      assert GuildActions([a][1..], g) == [];
    } else {
      var longer := log + [a];
      assert longer[0] == log[0] && longer[1..] == log[1..] + [a];
      GuildActionsAppend(log[1..], a, g);
      var rest := GuildActions(log[1..], g);
      assert GuildActions(longer[1..], g) == rest + tail;
      if log[0].guildId == g {
        assert GuildActions(longer, g) == [log[0]] + (rest + tail) == ([log[0]] + rest) + tail;
      }
    }
  }

  function TimestampKey(a: ModAction): int {
    a.timestamp
  }

  /** `r` is a page of guild `g`'s records: drawn from them without
      repetition, newest first, as many as the limit allows (all of them
      when it does not bite), and none left out is newer than one kept. */
  ghost predicate IsActionPage(db: Db, g: Id, limit: int, r: seq<ModAction>) {
    && (forall i :: 0 <= i < |r| ==> r[i] in db.modLog && r[i].guildId == g)
    && multiset(r) <= multiset(GuildActions(db.modLog, g))
    && (var n := |GuildActions(db.modLog, g)|; |r| == if limit < 0 || limit >= n then n else limit)
    && Ordering.NonIncreasing(r, TimestampKey)
    && (0 <= limit ==> |r| <= limit)
    && (limit < 0 || |r| < limit ==> forall a :: a in db.modLog && a.guildId == g ==> a in r)
    && (forall a :: a in db.modLog && a.guildId == g && a !in r ==>
          forall i :: 0 <= i < |r| ==> r[i].timestamp >= a.timestamp)
  }

  /** `SELECT … WHERE guild_id = g ORDER BY timestamp DESC LIMIT limit`. */
  function GetModActions(db: Db, g: Id, limit: int): (r: seq<ModAction>)
    ensures IsActionPage(db, g, limit, r)
  {
    var rows := GuildActions(db.modLog, g);
    ActionPage(db, g, limit);
    Ordering.TopBy(rows, TimestampKey, limit)
  }

  /** The timestamp selection of the guild's records is a page of them. */
  lemma ActionPage(db: Db, g: Id, limit: int)
    ensures IsActionPage(db, g, limit, Ordering.TopBy(GuildActions(db.modLog, g), TimestampKey, limit))
  {
    var rows := GuildActions(db.modLog, g);
    var r := Ordering.TopBy(rows, TimestampKey, limit);
    Ordering.SubMultisetMembers(r, rows);
    if limit < 0 || |r| < limit {
      Ordering.SubMultisetMembers(rows, r);
    }
  }

  /** The rows the `GROUP BY action_type` query puts in `kind`'s group for
      the (guild, moderator) pair. */
  predicate InGroup(a: ModAction, g: Id, moderator: Id, kind: ActionKind) {
    a.guildId == g && a.moderatorId == moderator && a.kind == kind
  }

  /** Positions of the log in the group: what `COUNT(*)` counts. */
  ghost function GroupRows(log: seq<ModAction>, g: Id, moderator: Id, kind: ActionKind): set<nat> {
    set i | 0 <= i < |log| && InGroup(log[i], g, moderator, kind)
  }

  function CountActions(log: seq<ModAction>, g: Id, moderator: Id, kind: ActionKind): nat {
    if |log| == 0 then 0
    else CountActions(log[..|log| - 1], g, moderator, kind)
         + (if InGroup(log[|log| - 1], g, moderator, kind) then 1 else 0)
  }

  /** The recursive count agrees with the size of the SQL group. */
  lemma {:induction false} CountIsGroupSize(log: seq<ModAction>, g: Id, moderator: Id, kind: ActionKind)
    ensures CountActions(log, g, moderator, kind) == |GroupRows(log, g, moderator, kind)|
    decreases |log|
  {
    if |log| == 0 {
      assert GroupRows(log, g, moderator, kind) == {};
    } else {
      var init := log[..|log| - 1];
      CountIsGroupSize(init, g, moderator, kind);
      GroupRowsStep(log, g, moderator, kind);
    }
  }

  /** The group of a log is the group of all but its last record, plus
      the last position when that record belongs to the group. */
  lemma GroupRowsStep(log: seq<ModAction>, g: Id, moderator: Id, kind: ActionKind)
    requires |log| > 0
    ensures var last := |log| - 1;
            var before := GroupRows(log[..last], g, moderator, kind);
            && last !in before
            && GroupRows(log, g, moderator, kind)
               == before + if InGroup(log[last], g, moderator, kind) then {last} else {}
  {
    var last := |log| - 1;
    var init := log[..last];
    var before := GroupRows(init, g, moderator, kind);
    var all := GroupRows(log, g, moderator, kind);
    var added := if InGroup(log[last], g, moderator, kind) then {last} else {};
    forall i
      ensures i in all <==> i in before + added
    {
      if 0 <= i < last {
        assert init[i] == log[i];
      }
    }
  }

  /** Per-type counts for the (guild, moderator) pair; a type without
      records counts 0, and unban records are never counted. */
  function GetModStats(db: Db, g: Id, moderator: Id): (r: ModStats)
    ensures r.bans == |GroupRows(db.modLog, g, moderator, Ban)|
    ensures r.kicks == |GroupRows(db.modLog, g, moderator, Kick)|
    ensures r.timeouts == |GroupRows(db.modLog, g, moderator, Timeout)|
  {
    CountIsGroupSize(db.modLog, g, moderator, Ban);
    CountIsGroupSize(db.modLog, g, moderator, Kick);
    CountIsGroupSize(db.modLog, g, moderator, Timeout);
    ModStats(CountActions(db.modLog, g, moderator, Ban),
             CountActions(db.modLog, g, moderator, Kick),
             CountActions(db.modLog, g, moderator, Timeout))
  }

  /** The stats after one more record of `kind`. */
  function Bump(s: ModStats, kind: ActionKind): ModStats {
    match kind
    case Ban => s.(bans := s.bans + 1)
    case Kick => s.(kicks := s.kicks + 1)
    case Timeout => s.(timeouts := s.timeouts + 1)
    case Unban => s
  }

  /** Logging an action adds one to its type's count for that moderator in
      that guild (nothing for an unban) and leaves every other pair's
      counts alone. */
  lemma StatsAfterLog(db: Db, g: Id, moderator: Id, target: Id, kind: ActionKind,
                      reason: Option<string>, timestamp: int, g': Id, moderator': Id)
    ensures var r := LogModAction(db, g, moderator, target, kind, reason, timestamp);
            GetModStats(r, g', moderator') ==
              if g' == g && moderator' == moderator then Bump(GetModStats(db, g', moderator'), kind)
              else GetModStats(db, g', moderator')
  {
    var r := LogModAction(db, g, moderator, target, kind, reason, timestamp);
    assert r.modLog[..|r.modLog| - 1] == db.modLog;
  }

  /** Two bans, a kick and an unban by one moderator read back as two bans,
      one kick and no timeouts. */
  lemma StatsExample(g: Id, m: Id, t: Id, now: int)
    ensures var db1 := LogModAction(EmptyDb, g, m, t, Ban, None, now);
            var db2 := LogModAction(db1, g, m, t, Ban, None, now);
            var db3 := LogModAction(db2, g, m, t, Kick, None, now);
            var db4 := LogModAction(db3, g, m, t, Unban, None, now);
            GetModStats(db4, g, m) == ModStats(2, 1, 0)
  {
    var db1 := LogModAction(EmptyDb, g, m, t, Ban, None, now);
    var db2 := LogModAction(db1, g, m, t, Ban, None, now);
    var db3 := LogModAction(db2, g, m, t, Kick, None, now);
    StatsAfterLog(EmptyDb, g, m, t, Ban, None, now, g, m);
    StatsAfterLog(db1, g, m, t, Ban, None, now, g, m);
    StatsAfterLog(db2, g, m, t, Kick, None, now, g, m);
    StatsAfterLog(db3, g, m, t, Unban, None, now, g, m);
  }

  /** Records of the moderator in the guild, of any type. */
  function CountByModerator(log: seq<ModAction>, g: Id, moderator: Id): nat {
    if |log| == 0 then 0
    else CountByModerator(log[..|log| - 1], g, moderator)
         + (if log[|log| - 1].guildId == g && log[|log| - 1].moderatorId == moderator then 1 else 0)
  }

  /** The stats total misses exactly the moderator's unban records. */
  lemma {:induction false} StatsTotalExcludesUnbans(log: seq<ModAction>, g: Id, moderator: Id)
    ensures CountActions(log, g, moderator, Ban) + CountActions(log, g, moderator, Kick)
            + CountActions(log, g, moderator, Timeout) + CountActions(log, g, moderator, Unban)
            == CountByModerator(log, g, moderator)
    decreases |log|
  {
    if |log| > 0 {
      StatsTotalExcludesUnbans(log[..|log| - 1], g, moderator);
    }
  }

  // ---------------------------------------------------------------------
  // spam_warnings

  /** The stored count, or 0 when the pair has no row. */
  function GetSpamWarnings(db: Db, u: Id, g: Id): (r: int)
    ensures (u, g) in db.spam ==> r == db.spam[(u, g)].warnings
    ensures (u, g) !in db.spam ==> r == 0
  {
    if (u, g) in db.spam then db.spam[(u, g)].warnings else 0
  }

  /** Upsert that counts one more warning and stamps it with `now`; the
      result is the new count, one more than before (1 the first time). */
  function AddSpamWarning(db: Db, u: Id, g: Id, now: int): (r: (Db, int))
    ensures r.1 == GetSpamWarnings(db, u, g) + 1
    ensures GetSpamWarnings(r.0, u, g) == r.1
    ensures (u, g) in r.0.spam && r.0.spam[(u, g)].lastWarning == now
    ensures forall k :: k != (u, g) ==> (k in r.0.spam <==> k in db.spam)
    ensures forall k :: k != (u, g) && k in db.spam ==> r.0.spam[k] == db.spam[k]
    ensures r.0.guilds == db.guilds && r.0.xp == db.xp && r.0.modLog == db.modLog
  {
    var count := GetSpamWarnings(db, u, g) + 1;
    var db' := db.(spam := db.spam[(u, g) := SpamRow(count, now)]);
    (db', GetSpamWarnings(db', u, g))
  }

  /** Deletes the pair's row, so the count reads 0 afterwards. */
  function ResetSpamWarnings(db: Db, u: Id, g: Id): (r: Db)
    ensures GetSpamWarnings(r, u, g) == 0
    ensures (u, g) !in r.spam
    ensures forall k :: k != (u, g) ==> (k in r.spam <==> k in db.spam)
    ensures forall k :: k != (u, g) && k in db.spam ==> r.spam[k] == db.spam[k]
    ensures r.guilds == db.guilds && r.xp == db.xp && r.modLog == db.modLog
  {
    db.(spam := db.spam - {(u, g)})
  }

  /** After a reset the next warning counts 1, and the one after it 2. */
  lemma SpamWarningsRestart(db: Db, u: Id, g: Id, t1: int, t2: int)
    ensures var (db1, first) := AddSpamWarning(ResetSpamWarnings(db, u, g), u, g, t1);
            first == 1 && AddSpamWarning(db1, u, g, t2).1 == 2
  {
  }
}
