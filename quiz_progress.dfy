/**
 * The quiz-progress hook: the current quiz session, the user's aggregate
 * statistics, the per-question timer and the per-address history of completed
 * sessions, with the operations `startQuiz`, `updateAnswer`, `moveToQuestion`,
 * `completeQuiz`, `abandonQuiz` and `resetQuiz`.
 *
 * Dates are milliseconds since the epoch and the clock reading is a parameter
 * (`now`) of every operation that reads it. The history, which the hook keeps
 * in browser storage under `quiz-history-<address>`, is a map from the address
 * to the list of sessions, newest first.
 */
module QuizProgress {
  import opened JsRuntime

  const MillisPerDay: int := 1000 * 60 * 60 * 24
  const HistoryLimit: nat := 50

  datatype Status = InProgress | Completed | Abandoned

  /** A question as `startQuiz` receives it. */
  datatype QuestionPrompt = QuestionPrompt(id: string, text: string, targetLanguage: string)

  /** A question inside a session, with the user's answer and the time spent
      on it in milliseconds. */
  datatype QuizQuestion = QuizQuestion(
    id: string,
    text: string,
    targetLanguage: string,
    userAnswer: string,
    timeSpent: int)

  datatype QuizSession = QuizSession(
    id: string,
    languagePair: string,
    startTime: int,
    endTime: Option<int>,
    questions: seq<QuizQuestion>,
    currentQuestionIndex: int,
    score: Option<int>,
    status: Status)

  datatype PairStats = PairStats(attempts: nat, averageScore: real, bestScore: int)

  datatype UserStats = UserStats(
    totalQuizzes: nat,
    completedQuizzes: nat,
    averageScore: real,
    totalTimeSpent: int,
    languagePairStats: map<string, PairStats>,
    streakDays: int,
    lastQuizDate: Option<int>)

  /** The statistics of a user who has taken no quiz. */
  const InitialStats: UserStats := UserStats(0, 0, 0.0, 0, map[], 0, None)

  function Max(a: int, b: int): int
  {
    if a >= b then a else b
  }

  function Min(a: int, b: int): int
  {
    if a <= b then a else b
  }

  // ---------------------------------------------------------------------------
  // Reference definitions for the statistics

  function Sum(ss: seq<int>): int
  {
    if ss == [] then 0 else Sum(ss[..|ss| - 1]) + ss[|ss| - 1]
  }

  /** The best of a list of scores, counting from 0 as the hook does. */
  function BestOf(ss: seq<int>): int
  {
    if ss == [] then 0 else Max(BestOf(ss[..|ss| - 1]), ss[|ss| - 1])
  }

  lemma SumAppend(ss: seq<int>, x: int)
    ensures Sum(ss + [x]) == Sum(ss) + x
  {
    assert (ss + [x])[..|ss|] == ss;
  }

  lemma BestOfAppend(ss: seq<int>, x: int)
    ensures BestOf(ss + [x]) == Max(BestOf(ss), x)
  {
    assert (ss + [x])[..|ss|] == ss;
  }

  /** `BestOf` is the largest of 0 and the scores. */
  lemma {:induction false} BestOfIsMaximum(ss: seq<int>)
    ensures BestOf(ss) >= 0
    ensures forall i :: 0 <= i < |ss| ==> ss[i] <= BestOf(ss)
    ensures BestOf(ss) == 0 || BestOf(ss) in ss
  {
    if ss != [] {
      var init := ss[..|ss| - 1];
      BestOfIsMaximum(init);
      assert ss == init + [ss[|ss| - 1]];
    }
  }

  /** The total time recorded on a session's questions (the `reduce` over
      `timeSpent`). */
  function TotalTime(qs: seq<QuizQuestion>): int
  {
    if qs == [] then 0 else TotalTime(qs[..|qs| - 1]) + qs[|qs| - 1].timeSpent
  }

  lemma {:induction false} TotalTimeNonNegative(qs: seq<QuizQuestion>)
    requires forall i :: 0 <= i < |qs| ==> qs[i].timeSpent >= 0
    ensures TotalTime(qs) >= 0
  {
    if qs != [] {
      TotalTimeNonNegative(qs[..|qs| - 1]);
    }
  }

  // ---------------------------------------------------------------------------
  // The statistics reducer of completeQuiz

  /** The mean of `n` values averaging `avg` and one more value `x`. */
  function RunningAverage(avg: real, n: nat, x: int): real
  {
    (avg * n as real + x as real) / (n + 1) as real
  }

  /** The new statistics of one language pair after a completed quiz. */
  function UpdatePair(prev: Option<PairStats>, score: int): (p: PairStats)
    ensures p.attempts == (if prev.Some? then prev.value.attempts else 0) + 1
    ensures p.bestScore == Max(if prev.Some? then prev.value.bestScore else 0, score)
    ensures prev.None? ==> p.averageScore == score as real
  {
    match prev
    case None => PairStats(1, score as real, Max(0, score))
    case Some(q) =>
      PairStats(
        q.attempts + 1,
        RunningAverage(q.averageScore, q.attempts, score),
        Max(q.bestScore, score))
  }

  /**
   * The day-streak rule: a first quiz starts a streak of 1; a quiz on the next
   * calendar-length day (a whole-day difference of exactly 1) extends it; a
   * longer gap restarts it at 1; a quiz within a day of the last one (or a
   * clock that went backwards) leaves it as it was.
   */
  function NextStreak(streak: int, last: Option<int>, now: int): (r: int)
    ensures last.None? ==> r == 1
    ensures last.Some? && now - last.value < MillisPerDay ==> r == streak
    ensures last.Some? && MillisPerDay <= now - last.value < 2 * MillisPerDay ==> r == streak + 1
    ensures last.Some? && now - last.value >= 2 * MillisPerDay ==> r == 1
  {
    if last.None? then 1
    else
      var days := (now - last.value) / MillisPerDay;
      if days == 1 then streak + 1
      else if days > 1 then 1
      else streak
  }

  /** The statistics after completing `session` with `score` at time `now`. */
  function UpdateStats(prev: UserStats, session: QuizSession, score: int, now: int): (st: UserStats)
    ensures st.totalQuizzes == prev.totalQuizzes + 1
    ensures st.completedQuizzes == prev.completedQuizzes + 1
    ensures st.totalTimeSpent == prev.totalTimeSpent + TotalTime(session.questions)
    ensures st.lastQuizDate == Some(now)
    ensures st.languagePairStats.Keys == prev.languagePairStats.Keys + {session.languagePair}
    ensures forall p :: p in prev.languagePairStats && p != session.languagePair ==>
      st.languagePairStats[p] == prev.languagePairStats[p]
  {
    var pair := session.languagePair;
    var old_ := if pair in prev.languagePairStats then Some(prev.languagePairStats[pair]) else None;
    UserStats(
      prev.totalQuizzes + 1,
      prev.completedQuizzes + 1,
      RunningAverage(prev.averageScore, prev.completedQuizzes, score),
      prev.totalTimeSpent + TotalTime(session.questions),
      prev.languagePairStats[pair := UpdatePair(old_, score)],
      NextStreak(prev.streakDays, prev.lastQuizDate, now),
      Some(now))
  }

  /** The bookkeeping of `abandonQuiz`: only the quiz count moves. */
  function AbandonStats(prev: UserStats): (st: UserStats)
    ensures st.totalQuizzes == prev.totalQuizzes + 1
    ensures st.(totalQuizzes := prev.totalQuizzes) == prev
  {
    prev.(totalQuizzes := prev.totalQuizzes + 1)
  }

  // ---------------------------------------------------------------------------
  // The invariant tying the statistics to the scores they summarise

  predicate PairConsistent(p: PairStats, ss: seq<int>)
  {
    && p.attempts == |ss| >= 1
    && p.averageScore == MeanOf(ss)
    && p.bestScore == BestOf(ss)
  }

  /** Every pair's statistics summarise exactly that pair's scores. */
  predicate PairsConsistent(m: map<string, PairStats>, pairScores: map<string, seq<int>>)
  {
    && m.Keys == pairScores.Keys
    && forall p :: p in pairScores ==> PairConsistent(m[p], pairScores[p])
  }

  /**
   * `st` summarises the completed scores `scores` (in completion order) and
   * their split by language pair `pairScores`: the running means times their
   * counts are the sums, the best scores are the maxima, the streak never
   * exceeds the number of completed quizzes, and a last quiz date exists
   * exactly when some quiz was completed.
   */
  predicate StatsConsistent(st: UserStats, scores: seq<int>, pairScores: map<string, seq<int>>)
  {
    && st.completedQuizzes == |scores|
    && st.completedQuizzes <= st.totalQuizzes
    && st.averageScore == MeanOf(scores)
    && PairsConsistent(st.languagePairStats, pairScores)
    && 0 <= st.streakDays <= st.completedQuizzes
    && (st.lastQuizDate.Some? <==> st.completedQuizzes > 0)
  }

  function ScoresOf(pairScores: map<string, seq<int>>, pair: string): seq<int>
  {
    if pair in pairScores then pairScores[pair] else []
  }

  lemma InitialStatsConsistent()
    ensures StatsConsistent(InitialStats, [], map[])
  {
  }

  /** A running mean stays the mean after one more value. */
  lemma RunningMean(avg: real, n: nat, total: int, x: int)
    requires avg * (n as real) == total as real
    ensures RunningAverage(avg, n, x) * ((n + 1) as real) == (total + x) as real
  {
    var d := (n + 1) as real;
    var num := avg * n as real + x as real;
    assert num == (total + x) as real;
    assert (num / d) * d == num;
  }

  /** The mean the hook's running averages compute, folded over the scores in
      order. */
  function MeanOf(ss: seq<int>): real
  {
    if ss == [] then 0.0 else RunningAverage(MeanOf(ss[..|ss| - 1]), |ss| - 1, ss[|ss| - 1])
  }

  lemma MeanOfAppend(ss: seq<int>, x: int)
    ensures MeanOf(ss + [x]) == RunningAverage(MeanOf(ss), |ss|, x)
  {
    assert (ss + [x])[..|ss|] == ss;
  }

  /** The running average is the arithmetic mean: times the number of scores
      it is their sum. */
  lemma {:induction false} MeanOfIsMean(ss: seq<int>)
    ensures MeanOf(ss) * (|ss| as real) == Sum(ss) as real
  {
    if ss != [] {
      var init := ss[..|ss| - 1];
      MeanOfIsMean(init);
      RunningMean(MeanOf(init), |init|, Sum(init), ss[|ss| - 1]);
    }
  }

  lemma UpdatePairConsistent(prev: Option<PairStats>, ss: seq<int>, score: int)
    requires prev.None? <==> ss == []
    requires prev.Some? ==> PairConsistent(prev.value, ss)
    ensures PairConsistent(UpdatePair(prev, score), ss + [score])
  {
    MeanOfAppend(ss, score);
    BestOfAppend(ss, score);
    if prev.None? {
      assert ss + [score] == [score];
    }
  }

  /** The per-pair statistics stay consistent when one pair gets a new score. */
  lemma PairsConsistentAfterUpdate(
    m: map<string, PairStats>, pairScores: map<string, seq<int>>, pair: string, score: int)
    requires PairsConsistent(m, pairScores)
    ensures PairsConsistent(
      m[pair := UpdatePair(if pair in m then Some(m[pair]) else None, score)],
      pairScores[pair := ScoresOf(pairScores, pair) + [score]])
  {
    UpdatePairConsistent(if pair in m then Some(m[pair]) else None, ScoresOf(pairScores, pair), score);
  }

  /** Completing a quiz keeps the statistics consistent with the scores, the
      new score being added to the global list and to its pair's list. */
  lemma UpdateStatsConsistent(
    prev: UserStats, scores: seq<int>, pairScores: map<string, seq<int>>,
    session: QuizSession, score: int, now: int)
    requires StatsConsistent(prev, scores, pairScores)
    ensures StatsConsistent(
      UpdateStats(prev, session, score, now),
      scores + [score],
      pairScores[session.languagePair := ScoresOf(pairScores, session.languagePair) + [score]])
  {
    var st := UpdateStats(prev, session, score, now);
    MeanOfAppend(scores, score);
    PairsConsistentAfterUpdate(prev.languagePairStats, pairScores, session.languagePair, score);
  }

  /** Consistent statistics carry a true mean: the global average times the
      number of completed quizzes is the sum of their scores. */
  lemma GlobalAverage(st: UserStats, scores: seq<int>, pairScores: map<string, seq<int>>)
    requires StatsConsistent(st, scores, pairScores)
    ensures st.averageScore * (st.completedQuizzes as real) == Sum(scores) as real
  {
    MeanOfIsMean(scores);
  }

  /** Likewise for a language pair: its average times its attempts is the
      sum of its scores. */
  lemma PairAverage(p: PairStats, ss: seq<int>)
    requires PairConsistent(p, ss)
    ensures p.averageScore * (p.attempts as real) == Sum(ss) as real
  {
    MeanOfIsMean(ss);
  }

  /** Abandoning a quiz keeps the statistics consistent with the same scores. */
  lemma AbandonStatsConsistent(prev: UserStats, scores: seq<int>, pairScores: map<string, seq<int>>)
    requires StatsConsistent(prev, scores, pairScores)
    ensures StatsConsistent(AbandonStats(prev), scores, pairScores)
  {
  }

  /** Three quizzes scored 80, 60 and 100 in one pair average 80 with a best of 100. */
  lemma ThreeQuizzesExample(s0: QuizSession, now: int)
    ensures
      var st1 := UpdateStats(InitialStats, s0, 80, now);
      var st2 := UpdateStats(st1, s0, 60, now);
      var st3 := UpdateStats(st2, s0, 100, now);
      && st3.averageScore == 80.0
      && st3.languagePairStats[s0.languagePair] == PairStats(3, 80.0, 100)
      && st3.streakDays == 1
  {
    var st1 := UpdateStats(InitialStats, s0, 80, now);
    var st2 := UpdateStats(st1, s0, 60, now);
    assert st2.averageScore == 70.0;
    assert st2.languagePairStats[s0.languagePair] == PairStats(2, 70.0, 80);
  }

  // ---------------------------------------------------------------------------
  // History

  /** `unshift` the session, then cut the list to its first 50 entries. */
  function PushHistory(h: seq<QuizSession>, s: QuizSession): (r: seq<QuizSession>)
    ensures |r| == Min(|h| + 1, HistoryLimit)
    ensures r[0] == s
    ensures forall i :: 1 <= i < |r| ==> r[i] == h[i - 1]
  {
    var pushed := [s] + h;
    if |pushed| > HistoryLimit then pushed[..HistoryLimit] else pushed
  }

  function Reverse<T>(ss: seq<T>): (r: seq<T>)
    ensures |r| == |ss|
  {
    if ss == [] then [] else [ss[|ss| - 1]] + Reverse(ss[..|ss| - 1])
  }

  function Take<T>(ss: seq<T>, n: nat): seq<T>
  {
    if |ss| <= n then ss else ss[..n]
  }

  /** The history after completing the sessions `ss` in order. */
  function PushAll(h: seq<QuizSession>, ss: seq<QuizSession>): seq<QuizSession>
  {
    if ss == [] then h else PushHistory(PushAll(h, ss[..|ss| - 1]), ss[|ss| - 1])
  }

  /** After any run of completions the history holds the 50 most recent
      sessions, newest first, followed by what it held before. */
  lemma {:induction false} PushAllKeepsNewest(h: seq<QuizSession>, ss: seq<QuizSession>)
    requires |h| <= HistoryLimit
    ensures PushAll(h, ss) == Take(Reverse(ss) + h, HistoryLimit)
  {
    if ss != [] {
      var init := ss[..|ss| - 1];
      var s := ss[|ss| - 1];
      PushAllKeepsNewest(h, init);
      var prevH := Take(Reverse(init) + h, HistoryLimit);
      var want := Take(Reverse(ss) + h, HistoryLimit);
      assert Reverse(ss) + h == [s] + (Reverse(init) + h);
      var got := PushHistory(prevH, s);
      assert |got| == |want|;
      forall i | 0 <= i < |got|
        ensures got[i] == want[i]
      {
        if i > 0 {
          assert got[i] == prevH[i - 1];
        }
      }
    }
  }

  // ---------------------------------------------------------------------------
  // The hook

  /** A session has a score and an end time exactly when it is completed. */
  predicate CompletedIffScored(s: QuizSession)
  {
    s.status == Completed <==> s.score.Some? && s.endTime.Some?
  }

  /** Every stored list is capped and holds only completed sessions. */
  predicate HistoryWellFormed(history: map<string, seq<QuizSession>>)
  {
    && (forall a :: a in history ==> |history[a]| <= HistoryLimit)
    && (forall a, i :: a in history && 0 <= i < |history[a]| ==>
          history[a][i].status == Completed && CompletedIffScored(history[a][i]))
  }

  /** Pushing a completed session onto one address's list keeps the stored
      history well formed. */
  lemma PushKeepsHistoryWellFormed(history: map<string, seq<QuizSession>>, a: string, s: QuizSession)
    requires HistoryWellFormed(history)
    requires s.status == Completed && CompletedIffScored(s)
    ensures HistoryWellFormed(history[a := PushHistory(if a in history then history[a] else [], s)])
  {
  }

  const MissingQuestion: string := "Cannot read properties of undefined (reading 'timeSpent')"

  class ProgressTracker {
    var currentSession: Option<QuizSession>
    var userStats: UserStats
    var questionStartTime: Option<int>
    /** The connected wallet address, if any. */
    var address: Option<string>
    /** The stored history per address, newest first. */
    var history: map<string, seq<QuizSession>>
    /** The completed scores, in order, and their split by language pair. */
    ghost var scores: seq<int>
    ghost var pairScores: map<string, seq<int>>

    /** The statistics summarise the completed scores, a session carries a
        score and an end time exactly when it is completed, and every stored
        list is capped and holds only completed sessions. */
    ghost predicate Valid()
      reads this
    {
      && StatsConsistent(userStats, scores, pairScores)
      && (currentSession.Some? ==> CompletedIffScored(currentSession.value))
      && HistoryWellFormed(history)
    }

    constructor (address: Option<string>)
      ensures Valid()
      ensures currentSession == None && userStats == InitialStats && questionStartTime == None
      ensures this.address == address && history == map[]
    {
      currentSession := None;
      userStats := InitialStats;
      questionStartTime := None;
      this.address := address;
      history := map[];
      scores := [];
      pairScores := map[];
    }

    /** The history shown for the connected address ("" counts as none). */
    function StoredHistory(): (h: seq<QuizSession>)
      reads this
      ensures h != [] ==> address.Some? && address.value != "" && address.value in history && h == history[address.value]
      ensures Valid() ==> |h| <= HistoryLimit && forall i :: 0 <= i < |h| ==> h[i].status == Completed && h[i].score.Some?
    {
      if address.Some? && address.value != "" && address.value in history then history[address.value] else []
    }

    /** `startQuiz`: a fresh in-progress session at question 0, replacing any
        current one, with empty answers and no time spent; the timer starts. */
    method StartQuiz(languagePair: string, prompts: seq<QuestionPrompt>, now: int)
      requires Valid()
      modifies this
      ensures Valid()
      ensures currentSession.Some?
      ensures var s := currentSession.value;
        && s.id == "quiz-" + IntString(now)
        && s.languagePair == languagePair
        && s.startTime == now && s.endTime == None && s.score == None
        && s.status == InProgress && s.currentQuestionIndex == 0
        && |s.questions| == |prompts|
        && forall i :: 0 <= i < |prompts| ==>
             s.questions[i] == QuizQuestion(prompts[i].id, prompts[i].text, prompts[i].targetLanguage, "", 0)
      ensures questionStartTime == Some(now)
      ensures userStats == old(userStats) && history == old(history) && address == old(address)
      ensures scores == old(scores) && pairScores == old(pairScores)
    {
      var questions := seq(|prompts|, i requires 0 <= i < |prompts| =>
        QuizQuestion(prompts[i].id, prompts[i].text, prompts[i].targetLanguage, "", 0));
      currentSession := Some(QuizSession(
        "quiz-" + IntString(now), languagePair, now, None, questions, 0, None, InProgress));
      questionStartTime := Some(now);
    }

    /**
     * `updateAnswer`: without a session nothing happens; otherwise question
     * `index` gets the answer and the larger of its recorded time and the time
     * elapsed on the timer (0 without a timer), so recorded time never
     * decreases; every other part of the session is kept. An index with no
     * question makes the update throw and changes nothing.
     */
    method UpdateAnswer(index: int, answer: string, now: int) returns (r: Outcome<()>)
      requires Valid()
      modifies this
      ensures Valid()
      ensures old(currentSession).None? ==> r == Returns(()) && unchanged(this)
      ensures old(currentSession).Some? && !(0 <= index < |old(currentSession).value.questions|) ==>
        r == Throws(MissingQuestion) && unchanged(this)
      ensures old(currentSession).Some? && 0 <= index < |old(currentSession).value.questions| ==>
        var s := old(currentSession).value;
        var q := s.questions[index];
        var elapsed := if old(questionStartTime).Some? then now - old(questionStartTime).value else 0;
        && r == Returns(())
        && currentSession == Some(s.(questions := s.questions[index := q.(userAnswer := answer, timeSpent := Max(q.timeSpent, elapsed))]))
        && currentSession.value.questions[index].timeSpent >= q.timeSpent
        && userStats == old(userStats) && questionStartTime == old(questionStartTime)
        && history == old(history) && address == old(address)
        && scores == old(scores) && pairScores == old(pairScores)
    {
      if currentSession.None? {
        return Returns(());
      }
      var timeSpent := if questionStartTime.Some? then now - questionStartTime.value else 0;
      var s := currentSession.value;
      if index < 0 || index >= |s.questions| {
        return Throws(MissingQuestion);
      }
      var q := s.questions[index];
      var updated := q.(userAnswer := answer, timeSpent := Max(q.timeSpent, timeSpent));
      currentSession := Some(s.(questions := s.questions[index := updated]));
      r := Returns(());
    }

    /** `moveToQuestion`: without a session nothing happens; otherwise the
        index is set, unchecked, and the timer restarts. */
    method MoveToQuestion(index: int, now: int)
      requires Valid()
      modifies this
      ensures Valid()
      ensures old(currentSession).None? ==> unchanged(this)
      ensures old(currentSession).Some? ==>
        && currentSession == Some(old(currentSession).value.(currentQuestionIndex := index))
        && questionStartTime == Some(now)
        && userStats == old(userStats) && history == old(history) && address == old(address)
        && scores == old(scores) && pairScores == old(pairScores)
    {
      if currentSession.None? {
        return;
      }
      currentSession := Some(currentSession.value.(currentQuestionIndex := index));
      questionStartTime := Some(now);
    }

    /**
     * `completeQuiz`: without a session nothing happens; otherwise the session
     * is marked completed with the score and end time (whatever its status
     * was), the statistics are updated, and with a connected address the
     * session goes to the front of that address's history.
     */
    method CompleteQuiz(finalScore: int, now: int)
      requires Valid()
      modifies this
      ensures Valid()
      ensures old(currentSession).None? ==> unchanged(this)
      ensures old(currentSession).Some? ==>
        var done := old(currentSession).value.(endTime := Some(now), score := Some(finalScore), status := Completed);
        && currentSession == Some(done)
        && userStats == UpdateStats(old(userStats), done, finalScore, now)
        && scores == old(scores) + [finalScore]
        && pairScores == old(pairScores)[done.languagePair := ScoresOf(old(pairScores), done.languagePair) + [finalScore]]
        && questionStartTime == old(questionStartTime) && address == old(address)
        && (if address.Some? && address.value != "" then
              history == old(history)[address.value := PushHistory(old(StoredHistory()), done)]
            else history == old(history))
    {
      if currentSession.None? {
        return;
      }
      var done := currentSession.value.(endTime := Some(now), score := Some(finalScore), status := Completed);
      var newStats := UpdateStats(userStats, done, finalScore, now);
      var newScores := scores + [finalScore];
      var newPairScores := pairScores[done.languagePair := ScoresOf(pairScores, done.languagePair) + [finalScore]];
      UpdateStatsConsistent(userStats, scores, pairScores, done, finalScore, now);
      var newHistory := history;
      if address.Some? && address.value != "" {
        PushKeepsHistoryWellFormed(history, address.value, done);
        newHistory := history[address.value := PushHistory(StoredHistory(), done)];
      }
      currentSession, userStats, scores, pairScores, history :=
        Some(done), newStats, newScores, newPairScores, newHistory;
    }

    /** `abandonQuiz`: without a session nothing happens; otherwise the
        session is dropped and only the quiz count moves. */
    method AbandonQuiz()
      requires Valid()
      modifies this
      ensures Valid()
      ensures old(currentSession).None? ==> unchanged(this)
      ensures old(currentSession).Some? ==>
        && currentSession == None
        && userStats == AbandonStats(old(userStats))
        && questionStartTime == old(questionStartTime)
        && history == old(history) && address == old(address)
        && scores == old(scores) && pairScores == old(pairScores)
    {
      if currentSession.None? {
        return;
      }
      currentSession := None;
      userStats := AbandonStats(userStats);
    }

    /** `resetQuiz`: from any state, no session and no timer. */
    method ResetQuiz()
      requires Valid()
      modifies this
      ensures Valid()
      ensures currentSession == None && questionStartTime == None
      ensures userStats == old(userStats) && history == old(history) && address == old(address)
      ensures scores == old(scores) && pairScores == old(pairScores)
    {
      currentSession := None;
      questionStartTime := None;
    }
  }
}
