/** The XP/leveling engine of the message path (Bot.cs): the level
    formula floor(sqrt(xp / 100)) and the one-way level ratchet. */
module Leveling {
  import opened Wrappers
  import opened Text
  import opened Store

  /** `Random.Next(15, 26)` yields 15..25. */
  const MIN_XP_GAIN: int := 15
  const MAX_XP_GAIN: int := 25

  lemma SquareMonotone(a: nat, b: nat)
    requires a <= b
    ensures a * a <= b * b
  {
    assert a * a <= a * b by {
      assert a * (b - a) >= 0;
    }
    assert a * b <= b * b by {
      assert b * (b - a) >= 0;
    }
  }

  /** One halving step of the integer square root: from the root of n / 4,
      the root of n is twice it or one more. */
  lemma ISqrtStep(n: nat, s: nat)
    requires s * s <= n / 4 < (s + 1) * (s + 1)
    ensures (2 * s) * (2 * s) <= n < (2 * s + 2) * (2 * s + 2)
  {
    assert (2 * s) * (2 * s) == 4 * (s * s);
    assert (2 * s + 2) * (2 * s + 2) == 4 * ((s + 1) * (s + 1));
    assert n < 4 * (n / 4 + 1);
    assert n / 4 + 1 <= (s + 1) * (s + 1);
  }

  /** Integer square root: the largest r with r * r <= n. */
  function ISqrt(n: nat): (r: nat)
    ensures r * r <= n < (r + 1) * (r + 1)
  {
    if n < 4 then (if n == 0 then 0 else 1)
    else
      var s := ISqrt(n / 4);
      ISqrtStep(n, s);
      var h := 2 * s;
      assert (h + 2) * (h + 2) == ((h + 1) + 1) * ((h + 1) + 1);
      if (h + 1) * (h + 1) <= n then h + 1 else h
  }

  /** `(int)Math.Sqrt(xp / 100.0)`: the level reached with `xp` points is
      the unique l with 100 * l^2 <= xp < 100 * (l + 1)^2. */
  function LevelFor(xp: int): (l: nat)
    requires xp >= 0
    ensures l * l * 100 <= xp < (l + 1) * (l + 1) * 100
  {
    var q := xp / 100;
    var l := ISqrt(q);
    assert l * l * 100 <= q * 100 <= xp;
    assert xp < (q + 1) * 100 <= (l + 1) * (l + 1) * 100;
    l
  }

  /** The bounds of `LevelFor` pin the level down: any l within them is
      the level. */
  lemma LevelUnique(xp: int, l: nat)
    requires xp >= 0
    requires l * l * 100 <= xp < (l + 1) * (l + 1) * 100
    ensures LevelFor(xp) == l
  {
    var L := LevelFor(xp);
    if L < l {
      SquareMonotone(L + 1, l);
      assert false;
    } else if L > l {
      SquareMonotone(l + 1, L);
      assert false;
    }
  }

  /** xp 0, 99, 100, 400 and 10000 reach levels 0, 0, 1, 2 and 10. */
  lemma LevelExamples()
    ensures LevelFor(0) == 0 && LevelFor(99) == 0 && LevelFor(100) == 1
    ensures LevelFor(400) == 2 && LevelFor(10000) == 10
  {
    LevelUnique(0, 0);
    LevelUnique(99, 0);
    LevelUnique(100, 1);
    LevelUnique(400, 2);
    LevelUnique(10000, 10);
  }

  /** More XP never means a lower level. */
  lemma LevelMonotone(xp1: int, xp2: int)
    requires 0 <= xp1 <= xp2
    ensures LevelFor(xp1) <= LevelFor(xp2)
  {
    var a := LevelFor(xp1);
    var b := LevelFor(xp2);
    if a > b {
      SquareMonotone(b + 1, a);
      assert false;
    }
  }

  /** Outcome of awarding XP for one chat message: the new database and,
      when the stored level went up, the level to announce. */
  datatype Award = Award(db: Db, levelUp: Option<nat>)

  /** `AddXp`, then recompute the level and store it only when it exceeds
      the stored one.  The stored level never decreases, a level-up is
      announced exactly when it was raised, it carries the new level, and
      afterwards the stored level is at least the computed one. */
  function AwardXp(db: Db, u: Id, g: Id, amount: int): (r: Award)
    requires MIN_XP_GAIN <= amount <= MAX_XP_GAIN
    requires GetUserXp(db, u, g).xp >= 0
    ensures (u, g) in r.db.xp
    ensures GetUserXp(r.db, u, g).xp == GetUserXp(db, u, g).xp + amount
    ensures GetUserXp(r.db, u, g).level >= GetUserXp(db, u, g).level
    ensures r.levelUp.Some? <==> GetUserXp(r.db, u, g).level > GetUserXp(db, u, g).level
    ensures r.levelUp.Some? ==>
              r.levelUp.value == GetUserXp(r.db, u, g).level == LevelFor(GetUserXp(r.db, u, g).xp)
    ensures GetUserXp(r.db, u, g).level >= LevelFor(GetUserXp(r.db, u, g).xp)
    ensures SameXpExcept(r.db.xp, db.xp, (u, g))
    ensures r.db.guilds == db.guilds && r.db.modLog == db.modLog && r.db.spam == db.spam
  {
    var db1 := AddXp(db, u, g, amount);
    var row := GetUserXp(db1, u, g);
    var newLevel := LevelFor(row.xp);
    if newLevel > row.level then Award(SetLevel(db1, u, g, newLevel), Some(newLevel))
    else Award(db1, None)
  }

  /** A reconciled level (equal to the computed one) stays reconciled
      through every award. */
  lemma AwardKeepsReconciled(db: Db, u: Id, g: Id, amount: int)
    requires MIN_XP_GAIN <= amount <= MAX_XP_GAIN
    requires GetUserXp(db, u, g).xp >= 0
    requires GetUserXp(db, u, g).level == LevelFor(GetUserXp(db, u, g).xp)
    ensures var after := GetUserXp(AwardXp(db, u, g, amount).db, u, g);
            after.level == LevelFor(after.xp)
  {
    var before := GetUserXp(db, u, g);
    LevelMonotone(before.xp, before.xp + amount);
  }

  /** Awards keep the database valid. */
  lemma AwardKeepsValid(db: Db, u: Id, g: Id, amount: int)
    requires Valid(db)
    requires MIN_XP_GAIN <= amount <= MAX_XP_GAIN
    ensures GetUserXp(db, u, g).xp >= 0
    ensures Valid(AwardXp(db, u, g, amount).db)
  {
    var r := AwardXp(db, u, g, amount).db;
    forall k | k in r.xp
      ensures r.xp[k].xp >= 0 && r.xp[k].level >= 0
    {
      if k != (u, g) {
        assert k in db.xp;
      }
    }
  }

  /** XP is awarded when the guild has no settings row or has leveling on. */
  predicate LevelingEnabled(db: Db, g: Id) {
    match GetGuildSettings(db, g)
    case None => true
    case Some(s) => s.levelingEnabled
  }

  /** The chat branch of the message path: award XP when leveling is
      enabled for the guild, otherwise change nothing. */
  function ChatXp(db: Db, u: Id, g: Id, amount: int): (r: Award)
    requires MIN_XP_GAIN <= amount <= MAX_XP_GAIN
    requires GetUserXp(db, u, g).xp >= 0
    ensures !LevelingEnabled(db, g) ==> r == Award(db, None)
    ensures LevelingEnabled(db, g) ==>
              GetUserXp(r.db, u, g).xp == GetUserXp(db, u, g).xp + amount
    ensures GetUserXp(r.db, u, g).level >= GetUserXp(db, u, g).level
    ensures r.levelUp.Some? <==> GetUserXp(r.db, u, g).level > GetUserXp(db, u, g).level
  {
    if LevelingEnabled(db, g) then AwardXp(db, u, g, amount) else Award(db, None)
  }
}
