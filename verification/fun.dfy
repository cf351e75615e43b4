/** The magic 8-ball (Commands/FunCommands.cs): a question in, one of
    twenty fixed answers out.  The random choice is a parameter. */
module Fun {
  import opened Text
  import opened Store
  import opened Effects

  /** The answers: ten positive, five neutral, five negative. */
  const ANSWERS: seq<string> := [
    "It is certain~ 💕",
    "It is decidedly so~ 💗",
    "Without a doubt~ 💖",
    "Yes, definitely~ 💕",
    "You may rely on it~ 💗",
    "As I see it, yes~ ✨",
    "Most likely~ 💕",
    "Outlook good~ 💖",
    "Yes~ 💗",
    "Signs point to yes~ ✨",
    "Reply hazy, try again~ 🤔",
    "Ask again later~ 💭",
    "Better not tell you now~ 😏",
    "Cannot predict now~ 🔮",
    "Concentrate and ask again~ 💫",
    "Don't count on it~ 💔",
    "My reply is no~ 😤",
    "My sources say no~ 💢",
    "Outlook not so good~ 😞",
    "Very doubtful~ 💔"
  ]

  const NO_QUESTION: string := "💔 You need to ask a question~ 🎱"

  /** The question the slash form shows when none is given. */
  const DEFAULT_QUESTION: string := "..."

  const REPLY_HEAD: string := "🎱 **Magic 8-Ball**\n\n**Question:** "
  const REPLY_MIDDLE: string := "\n\n**Answer:** "
  const REPLY_TAIL: string := "\n\n*shakes the 8-ball mysteriously*"

  datatype Mood = Positive | Neutral | Negative

  /** The mood of the answer at `pick`, by the answer list's grouping. */
  function MoodOf(pick: nat): (m: Mood)
    requires pick < |ANSWERS|
    ensures m == Positive <==> pick < 10
    ensures m == Negative <==> pick >= 15
  {
    if pick < 10 then Positive else if pick < 15 then Neutral else Negative
  }

  /** No answer appears twice, so the answer shown tells which was picked. */
  lemma AnswersDistinct()
    ensures forall i, j :: 0 <= i < j < |ANSWERS| ==> ANSWERS[i] != ANSWERS[j]
  {
  }

  /** The reply for a question and the picked answer. */
  function Reply(question: string, pick: nat): (r: string)
    requires pick < |ANSWERS|
    ensures StartsWith(r, REPLY_HEAD + question + REPLY_MIDDLE)
    ensures EndsWith(r, ANSWERS[pick] + REPLY_TAIL)
  {
    var head := REPLY_HEAD + question + REPLY_MIDDLE;
    var tail := ANSWERS[pick] + REPLY_TAIL;
    var r := head + tail;
    assert r[..|head|] == head;
    assert r[|r| - |tail|..] == tail;
    r
  }

  /** For one question, different picks give different replies: the reply
      determines the answer. */
  lemma {:induction false} ReplyDeterminesAnswer(question: string, i: nat, j: nat)
    requires i < |ANSWERS| && j < |ANSWERS|
    requires Reply(question, i) == Reply(question, j)
    ensures i == j
  {
    var head := REPLY_HEAD + question + REPLY_MIDDLE;
    var ri, rj := Reply(question, i), Reply(question, j);
    assert ri == head + (ANSWERS[i] + REPLY_TAIL);
    assert rj == head + (ANSWERS[j] + REPLY_TAIL);
    assert ANSWERS[i] + REPLY_TAIL == ri[|head|..] == rj[|head|..] == ANSWERS[j] + REPLY_TAIL;
    assert ANSWERS[i] == (ANSWERS[i] + REPLY_TAIL)[..|ANSWERS[i] + REPLY_TAIL| - |REPLY_TAIL|];
    assert ANSWERS[j] == (ANSWERS[j] + REPLY_TAIL)[..|ANSWERS[j] + REPLY_TAIL| - |REPLY_TAIL|];
    assert ANSWERS[i] == ANSWERS[j];
    AnswersDistinct();
  }

  /** Slash 8-ball: always answers, publicly, with the given question or
      "..."; changes nothing. */
  function EightBallSlash(db: Db, opts: Options, pick: nat): (r: SlashResult)
    requires pick < |ANSWERS|
    ensures r.Replied? && r.response.db == db && r.response.requests == []
    ensures "question" in opts.strings ==> r.response.posts == [Post(Reply(opts.strings["question"], pick), false)]
    ensures "question" !in opts.strings ==> r.response.posts == [Post(Reply(DEFAULT_QUESTION, pick), false)]
  {
    var question := StringOption(opts, "question").GetOr(DEFAULT_QUESTION);
    Replied(Say(db, Reply(question, pick), false))
  }

  /** Free-text 8-ball: empty arguments ask for a question; anything else
      is the question, answered with the picked answer. */
  function EightBallText(db: Db, args: string, pick: nat): (r: Response)
    requires pick < |ANSWERS|
    ensures r.db == db && r.requests == [] && |r.posts| == 1
    ensures args == "" <==> r.posts[0].text == NO_QUESTION
    ensures args != "" ==> r.posts[0] == Post(Reply(args, pick), false)
  {
    if args == "" then Say(db, NO_QUESTION, false)
    else
      var reply := Reply(args, pick);
      assert reply[0] == REPLY_HEAD[0] != NO_QUESTION[0];
      Say(db, reply, false)
  }
}
