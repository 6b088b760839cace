/**
 * The quiz page's view controller: a four-mode machine (home, quiz, results,
 * history) whose handlers drive the quiz-progress hook, and the guards that
 * choose which screen is rendered and which controls are enabled.
 *
 * The wallet's connection flag is an input of the home-screen guard, and the
 * random draw behind the mock score is a parameter of `CompleteQuiz`.
 */
module QuizInterface {
  import opened JsRuntime
  import opened QuizProgress

  datatype ViewMode = Home | Quiz | Results | History

  /** The screen a render produces. */
  datatype Screen = ResultsScreen | HistoryScreen | QuizScreen | HomeScreen

  /** What the primary button of the quiz screen does. */
  datatype PrimaryAction = GoNext | Complete

  const LastQuestion: int := 4
  const DefaultPair: string := "English → Spanish"

  /** The five questions every quiz started from this page uses. */
  const MockPrompts: seq<QuestionPrompt> := [
    QuestionPrompt("1", "Hello, how are you?", "Spanish"),
    QuestionPrompt("2", "What is your name?", "Spanish"),
    QuestionPrompt("3", "Where do you live?", "Spanish"),
    QuestionPrompt("4", "I love learning languages", "Spanish"),
    QuestionPrompt("5", "Thank you very much", "Spanish")
  ]

  /** The mock score `Math.floor(Math.random() * 40) + 60`, with the random
      draw in [0, 1) as a parameter. */
  function MockScore(draw: real): (s: int)
    requires 0.0 <= draw < 1.0
    ensures 60 <= s <= 99
  {
    (draw * 40.0).Floor + 60
  }

  // ---------------------------------------------------------------------------
  // Render selection

  /**
   * The screen shown: results only in results mode with a completed session;
   * history in history mode; the quiz only in quiz mode with a session; home
   * in every other case, including a quiz or results mode without a suitable
   * session.
   */
  function Render(mode: ViewMode, session: Option<QuizSession>): (s: Screen)
    ensures s == ResultsScreen <==> mode == Results && session.Some? && session.value.status == Completed
    ensures s == HistoryScreen <==> mode == History
    ensures s == QuizScreen <==> mode == Quiz && session.Some?
  {
    if mode == Results && session.Some? && session.value.status == Completed then ResultsScreen
    else if mode == History then HistoryScreen
    else if mode == Quiz && session.Some? then QuizScreen
    else HomeScreen
  }

  /** The answer shown for the current question (`userAnswer || ""`): the
      empty string or an answer the session holds. */
  function CurrentAnswer(session: QuizSession): (a: string)
    ensures a == "" || exists j :: 0 <= j < |session.questions| && session.questions[j].userAnswer == a
  {
    var i := session.currentQuestionIndex;
    if 0 <= i < |session.questions| then session.questions[i].userAnswer else ""
  }

  /** The primary button completes the quiz on the last question and moves on
      otherwise. */
  function Primary(session: QuizSession): (a: PrimaryAction)
    ensures a == Complete <==> session.currentQuestionIndex == LastQuestion
  {
    if session.currentQuestionIndex == LastQuestion then Complete else GoNext
  }

  /** The primary button is disabled while the trimmed answer is empty, so
      in particular while there is no answer. */
  function PrimaryEnabled(session: QuizSession): (b: bool)
    ensures b ==> CurrentAnswer(session) != ""
  {
    Trim(CurrentAnswer(session)) != ""
  }

  /** The previous button is disabled on the first question: on a valid
      index it is enabled exactly when the handler would move back. */
  function PreviousEnabled(session: QuizSession): (b: bool)
    ensures 0 <= session.currentQuestionIndex ==> (b <==> session.currentQuestionIndex > 0)
  {
    session.currentQuestionIndex != 0
  }

  /** Start needs a connected wallet. */
  predicate StartEnabled(isConnected: bool)
  {
    isConnected
  }

  /** The history button exists only once a quiz was completed. */
  predicate HistoryButtonShown(stats: UserStats)
  {
    stats.completedQuizzes > 0
  }

  /** Writing an answer at the current index makes it the answer shown. */
  lemma AnswerShownAfterWrite(s: QuizSession, answer: string, t: int)
    requires 0 <= s.currentQuestionIndex < |s.questions|
    ensures var i := s.currentQuestionIndex;
      CurrentAnswer(s.(questions := s.questions[i := s.questions[i].(userAnswer := answer, timeSpent := t)])) == answer
  {
  }

  /** With consistent statistics the history button is shown exactly when some
      quiz was completed, and completing a quiz always shows it. */
  lemma HistoryButtonAfterCompletion(
    st: UserStats, scores: seq<int>, pairScores: map<string, seq<int>>,
    session: QuizSession, score: int, now: int)
    requires StatsConsistent(st, scores, pairScores)
    ensures HistoryButtonShown(st) <==> scores != []
    ensures HistoryButtonShown(st) <==> st.lastQuizDate.Some?
    ensures HistoryButtonShown(UpdateStats(st, session, score, now))
  {
  }

  lemma {:induction false} TrimStartEmptyIffAllSpace(s: string)
    ensures TrimStart(s) == [] <==> forall i :: 0 <= i < |s| ==> IsSpace(s[i])
  {
    if s != [] && IsSpace(s[0]) {
      TrimStartEmptyIffAllSpace(s[1..]);
      assert forall i :: 1 <= i < |s| ==> s[i] == s[1..][i - 1];
    }
  }

  /** The primary button is enabled exactly when the current answer holds a
      character that is not whitespace. */
  lemma PrimaryEnabledIffVisibleText(session: QuizSession)
    ensures PrimaryEnabled(session) <==>
      exists i :: 0 <= i < |CurrentAnswer(session)| && !IsSpace(CurrentAnswer(session)[i])
  {
    var s := CurrentAnswer(session);
    var t := TrimStart(s);
    TrimStartEmptyIffAllSpace(s);
    if t != [] {
      assert !IsSpace(t[0]);
      assert TrimEnd(t) != [];
    }
  }

  // ---------------------------------------------------------------------------
  // The controller

  class Controller {
    const progress: ProgressTracker
    var mode: ViewMode
    var selectedPair: string

    /** The session the quiz view works on, when there is one, always has the
        five mock questions and an index among them. */
    ghost predicate Valid()
      reads this, progress
    {
      && progress.Valid()
      && (progress.currentSession.Some? ==>
            && |progress.currentSession.value.questions| == |MockPrompts|
            && 0 <= progress.currentSession.value.currentQuestionIndex <= LastQuestion)
    }

    constructor (address: Option<string>)
      ensures Valid() && fresh(progress)
      ensures mode == Home && selectedPair == DefaultPair
      ensures progress.currentSession == None && progress.userStats == InitialStats
    {
      progress := new ProgressTracker(address);
      mode := Home;
      selectedPair := DefaultPair;
    }

    /** What the page renders now. */
    function Shown(): Screen
      reads this, progress
    {
      Render(mode, progress.currentSession)
    }

    /** `handleAnswerChange`: writes the answer at the current index, and only
        there, recording the time spent on it as `updateAnswer` does (never
        less than before); the timer keeps running and nothing else changes.
        Nothing happens without a session. */
    method AnswerChange(answer: string, now: int)
      requires Valid()
      modifies progress
      ensures Valid()
      ensures old(progress.currentSession).None? ==> unchanged(progress)
      ensures old(progress.currentSession).Some? ==>
        var s := old(progress.currentSession).value;
        var i := s.currentQuestionIndex;
        var q := s.questions[i];
        var elapsed := if old(progress.questionStartTime).Some? then now - old(progress.questionStartTime).value else 0;
        && progress.currentSession == Some(s.(questions := s.questions[i := q.(userAnswer := answer, timeSpent := Max(q.timeSpent, elapsed))]))
        && progress.currentSession.value.questions[i].timeSpent >= q.timeSpent
        && (forall j :: 0 <= j < |s.questions| && j != i ==>
              progress.currentSession.value.questions[j] == s.questions[j])
        && progress.questionStartTime == old(progress.questionStartTime)
        && progress.userStats == old(progress.userStats)
        && progress.history == old(progress.history) && progress.address == old(progress.address)
        && progress.scores == old(progress.scores) && progress.pairScores == old(progress.pairScores)
    {
      if progress.currentSession.Some? {
        var r := progress.UpdateAnswer(progress.currentSession.value.currentQuestionIndex, answer, now);
      }
    }

    /** `handleNext`: one question forward, never past the last. */
    method Next(now: int)
      requires Valid()
      modifies progress
      ensures Valid() && mode == old(mode)
      ensures old(progress.currentSession).Some? && old(progress.currentSession).value.currentQuestionIndex < LastQuestion ==>
        && progress.currentSession == Some(old(progress.currentSession).value.(
             currentQuestionIndex := old(progress.currentSession).value.currentQuestionIndex + 1))
        && progress.questionStartTime == Some(now)
        && progress.userStats == old(progress.userStats)
        && progress.history == old(progress.history) && progress.address == old(progress.address)
        && progress.scores == old(progress.scores) && progress.pairScores == old(progress.pairScores)
      ensures !(old(progress.currentSession).Some? && old(progress.currentSession).value.currentQuestionIndex < LastQuestion) ==>
        unchanged(progress)
    {
      if progress.currentSession.Some? && progress.currentSession.value.currentQuestionIndex < LastQuestion {
        progress.MoveToQuestion(progress.currentSession.value.currentQuestionIndex + 1, now);
      }
    }

    /** `handlePrevious`: one question back, never before the first. */
    method Previous(now: int)
      requires Valid()
      modifies progress
      ensures Valid() && mode == old(mode)
      ensures old(progress.currentSession).Some? && old(progress.currentSession).value.currentQuestionIndex > 0 ==>
        && progress.currentSession == Some(old(progress.currentSession).value.(
             currentQuestionIndex := old(progress.currentSession).value.currentQuestionIndex - 1))
        && progress.questionStartTime == Some(now)
        && progress.userStats == old(progress.userStats)
        && progress.history == old(progress.history) && progress.address == old(progress.address)
        && progress.scores == old(progress.scores) && progress.pairScores == old(progress.pairScores)
      ensures !(old(progress.currentSession).Some? && old(progress.currentSession).value.currentQuestionIndex > 0) ==>
        unchanged(progress)
    {
      if progress.currentSession.Some? && progress.currentSession.value.currentQuestionIndex > 0 {
        progress.MoveToQuestion(progress.currentSession.value.currentQuestionIndex - 1, now);
      }
    }

    /** `handleStartQuiz`: a new session on the five mock questions under the
        selected pair, shown in quiz mode. */
    method StartQuiz(now: int)
      requires Valid()
      modifies this, progress
      ensures Valid()
      ensures mode == Quiz && selectedPair == old(selectedPair)
      ensures progress.currentSession.Some?
      ensures var s := progress.currentSession.value;
        && s.id == "quiz-" + IntString(now)
        && s.languagePair == selectedPair && s.status == InProgress
        && s.startTime == now && s.endTime == None && s.score == None
        && s.currentQuestionIndex == 0 && |s.questions| == 5
        && forall i :: 0 <= i < 5 ==>
             s.questions[i] == QuizQuestion(MockPrompts[i].id, MockPrompts[i].text, MockPrompts[i].targetLanguage, "", 0)
      ensures progress.questionStartTime == Some(now)
      ensures progress.userStats == old(progress.userStats)
      ensures progress.history == old(progress.history) && progress.address == old(progress.address)
      ensures progress.scores == old(progress.scores) && progress.pairScores == old(progress.pairScores)
      ensures Shown() == QuizScreen
    {
      progress.StartQuiz(selectedPair, MockPrompts, now);
      mode := Quiz;
    }

    /** `handleCompleteQuiz`: completes the session with a mock score in
        60..99 and switches to results mode. */
    method CompleteQuiz(draw: real, now: int)
      requires Valid()
      requires 0.0 <= draw < 1.0
      modifies this, progress
      ensures Valid()
      ensures mode == Results && selectedPair == old(selectedPair)
      ensures old(progress.currentSession).Some? ==>
        var score := MockScore(draw);
        var done := old(progress.currentSession).value.(endTime := Some(now), score := Some(score), status := Completed);
        && progress.currentSession == Some(done)
        && progress.userStats == UpdateStats(old(progress.userStats), done, score, now)
        && progress.scores == old(progress.scores) + [score]
        && progress.pairScores == old(progress.pairScores)[done.languagePair := ScoresOf(old(progress.pairScores), done.languagePair) + [score]]
        && progress.questionStartTime == old(progress.questionStartTime) && progress.address == old(progress.address)
        && (if progress.address.Some? && progress.address.value != "" then
              progress.history == old(progress.history)[progress.address.value := PushHistory(old(progress.StoredHistory()), done)]
            else progress.history == old(progress.history))
        && Shown() == ResultsScreen
      ensures old(progress.currentSession).None? ==> unchanged(progress) && Shown() == HomeScreen
    {
      progress.CompleteQuiz(MockScore(draw), now);
      mode := Results;
    }

    /** `handleNewQuiz` and `handleGoHome`, which do the same: drop the session
        and go home. */
    method GoHome()
      requires Valid()
      modifies this, progress
      ensures Valid()
      ensures mode == Home && selectedPair == old(selectedPair)
      ensures progress.currentSession == None && progress.questionStartTime == None
      ensures progress.userStats == old(progress.userStats)
      ensures progress.history == old(progress.history) && progress.address == old(progress.address)
      ensures progress.scores == old(progress.scores) && progress.pairScores == old(progress.pairScores)
      ensures Shown() == HomeScreen
    {
      progress.ResetQuiz();
      mode := Home;
    }

    /** The history button's handler. */
    method ViewHistory()
      requires Valid()
      modifies this
      ensures Valid() && mode == History && selectedPair == old(selectedPair)
      ensures Shown() == HistoryScreen
    {
      mode := History;
    }

    /** The history screen's back button: home mode, without resetting the
        session. */
    method BackFromHistory()
      requires Valid()
      modifies this
      ensures Valid() && mode == Home && selectedPair == old(selectedPair)
      ensures Shown() == HomeScreen
    {
      mode := Home;
    }

    /** The language selector's callback. */
    method SelectPair(pairLabel: string)
      requires Valid()
      modifies this
      ensures Valid() && selectedPair == pairLabel && mode == old(mode)
    {
      selectedPair := pairLabel;
    }
  }

  /** A usage scenario of the page, not a handler of its own: start, answer
      and advance through all five questions, complete; the results screen
      then shows a completed session with a score in 60..99, and the history
      button appears. */
  method PlayThrough(page: Controller, answers: seq<string>, draw: real, now: int)
    requires page.Valid() && |answers| == 5
    requires 0.0 <= draw < 1.0
    modifies page, page.progress
    ensures page.Valid() && page.Shown() == ResultsScreen
    ensures HistoryButtonShown(page.progress.userStats)
    ensures var s := page.progress.currentSession.value;
      && s.status == Completed && s.score.Some? && 60 <= s.score.value <= 99
      && forall i :: 0 <= i < 5 ==> s.questions[i].userAnswer == answers[i]
  {
    page.StartQuiz(now);
    var k := 0;
    while k < 5
      invariant 0 <= k <= 5
      invariant page.Valid() && page.mode == Quiz
      invariant page.progress.currentSession.Some?
      invariant page.progress.currentSession.value.status == InProgress
      invariant page.progress.currentSession.value.currentQuestionIndex == if k < 5 then k else 4
      invariant forall i :: 0 <= i < k ==> page.progress.currentSession.value.questions[i].userAnswer == answers[i]
    {
      page.AnswerChange(answers[k], now);
      if k < 4 {
        page.Next(now);
      }
      k := k + 1;
    }
    page.CompleteQuiz(draw, now);
  }
}
