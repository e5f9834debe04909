/** The endless streak quiz of the web app: a per-session state machine over a
    fixed question bank. Each route is a pure transition from the session (and,
    for the results page, the score table) to the page it answers with and the
    session it leaves behind. */
module Quiz {

  import opened Optional
  import opened Bank
  import opened Scores

  /** The form value the page's timer submits when time runs out. */
  const TimeoutSignal := "TIMEOUT_SIGNAL"

  /** What is recorded and shown as the answer of a timeout or an empty submission. */
  const NoAnswerLabel := "Waktu Habis / Tidak Ada Jawaban"

  /** The error shown when the bank did not load. */
  const BankMissingMessage := "Quiz data not loaded. Check questions.json."

  /** The name used when the session has none; its scores are never stored. */
  const DefaultUsername := "Player"

  /** The quiz keys of the session: `q_indices` (the shuffled order),
      `current_q_index` (the cursor into it) and `score`. The routes always
      write and remove the three together. */
  datatype QuizState = QuizState(order: seq<int>, position: int, score: int)

  /** `last_q_data`: the question that ended the streak. */
  datatype Missed = Missed(question: string, userAnswer: string, correctAnswer: string, explanation: string)

  /** The session dictionary; `None` is a key that is not set. */
  datatype Session = Session(
    username: Option<string>,
    quiz: Option<QuizState>,
    lastMissed: Option<Missed>,
    errorMessage: Option<string>)

  /** A request to the question route: showing it, or posting the `option`
      form field (absent when the form has no such field). */
  datatype Request = View | Answer(option: Option<string>)

  /** Where the feedback page's "next" button leads. */
  datatype Route = ToQuestion | ToResults

  /** What a route answers with: a redirect or a rendered page. */
  datatype Page =
    | RedirectToStart
    | RedirectToQuestion
    | RedirectToResults
    | QuestionPage(question: Question, number: int)
    | FeedbackPage(question: Question, isCorrect: bool, userAnswer: string, correctAnswer: string, next: Route)
    | ResultsPage(username: string, score: int, topScores: seq<ScoreRow>, lastMissed: Option<Missed>, errorMessage: Option<string>)

  datatype Step = Step(page: Page, session: Session)

  datatype ResultsStep = ResultsStep(page: Page, session: Session, store: seq<ScoreRow>)

  /** How a submission is judged: whether it scores, and the answer recorded for it. */
  datatype Verdict = Verdict(isCorrect: bool, shown: string)

  /** What the routes rely on between requests: quiz keys exist only for a
      non-empty bank, the order is a permutation of the bank's indices, and
      the cursor is at most one past the end. */
  ghost predicate ValidQuiz(q: QuizState, n: nat) {
    && n > 0
    && IsPermutation(q.order, n)
    && 0 <= q.position <= n
  }

  ghost predicate Inv(s: Session, bank: seq<Question>) {
    s.quiz.Some? ==> ValidQuiz(s.quiz.value, |bank|)
  }

  /** A submission that is judged against the key: present, non-empty, and
      not the timeout signal. */
  predicate IsRealAnswer(option: Option<string>) {
    option.Some? && option.value != "" && option.value != TimeoutSignal
  }

  /** The `/start` route. `shuffled` is the outcome of shuffling
      `list(range(len(bank)))`. */
  function Start(s: Session, bank: seq<Question>, shuffled: seq<int>): (r: Step)
    requires IsPermutation(shuffled, |bank|)
    ensures |bank| == 0 ==> r.page == RedirectToResults && r.session.errorMessage == Some(BankMissingMessage)
    ensures |bank| == 0 ==> r.session.quiz == s.quiz && r.session.lastMissed == s.lastMissed
    ensures |bank| > 0 ==> r.page == RedirectToQuestion
    ensures |bank| > 0 ==> r.session.quiz == Some(QuizState(shuffled, 0, 0)) && r.session.lastMissed == None
    ensures |bank| > 0 ==> r.session.errorMessage == s.errorMessage
    ensures r.session.username == s.username
    ensures Inv(s, bank) ==> Inv(r.session, bank)
  {
    if |bank| == 0 then
      Step(RedirectToResults, s.(errorMessage := Some(BankMissingMessage)))
    else
      Step(RedirectToQuestion, s.(quiz := Some(QuizState(shuffled, 0, 0)), lastMissed := None))
  }

  /** The endless wrap-around: once the cursor has run past the end of the
      order, a fresh order replaces it and the cursor returns to its start. */
  function Wrap(q: QuizState, n: nat, shuffled: seq<int>): (w: QuizState)
    requires IsPermutation(shuffled, n)
    ensures q.position >= n ==> w.order == shuffled && w.position == 0
    ensures q.position < n ==> w == q
    ensures w.score == q.score
    ensures ValidQuiz(q, n) ==> ValidQuiz(w, n) && w.position < n
  {
    if q.position >= n then QuizState(shuffled, 0, q.score) else q
  }

  /** Judges a submission against the key `key`. */
  function Classify(option: Option<string>, key: string): (v: Verdict)
    ensures v.isCorrect <==> IsRealAnswer(option) && option.value == key
    ensures IsRealAnswer(option) ==> v.shown == option.value
    ensures !IsRealAnswer(option) ==> v.shown == NoAnswerLabel
  {
    if option.Some? && option.value != "" && option.value != TimeoutSignal then
      Verdict(option.value == key, option.value)
    else
      Verdict(false, NoAnswerLabel)
  }

  /** The question a valid, already wrapped quiz is at. */
  function Current(q: QuizState, bank: seq<Question>): (question: Question)
    requires ValidQuiz(q, |bank|) && q.position < |bank|
    ensures exists k :: 0 <= k < |bank| && q.order[q.position] == k && question == bank[k]
  {
    bank[q.order[q.position]]
  }

  /** The `/question` route, for both showing a question and answering it. */
  function AskQuestion(s: Session, bank: seq<Question>, shuffled: seq<int>, req: Request): (r: Step)
    requires Inv(s, bank)
    requires IsPermutation(shuffled, |bank|)
    ensures Inv(r.session, bank)
    ensures s.quiz.None? ==> r == Step(RedirectToStart, s)
    ensures s.quiz.Some? ==> r.session.quiz.Some?
    ensures r.session.username == s.username && r.session.errorMessage == s.errorMessage
  {
    match s.quiz
    case None => Step(RedirectToStart, s)
    case Some(q0) =>
      var q := Wrap(q0, |bank|, shuffled);
      var question := Current(q, bank);
      match req
      case View =>
        Step(QuestionPage(question, q.score + 1), s.(quiz := Some(q)))
      case Answer(option) =>
        var v := Classify(option, question.answer);
        if v.isCorrect then
          Step(FeedbackPage(question, true, v.shown, question.answer, ToQuestion),
               s.(quiz := Some(q.(score := q.score + 1, position := q.position + 1))))
        else
          Step(FeedbackPage(question, false, v.shown, question.answer, ToResults),
               s.(quiz := Some(q), lastMissed := Some(Missed(question.text, v.shown, question.answer, question.explanation))))
  }

  /** The `/results` route: records the run when it qualifies, reads the
      leaderboard after that, and clears everything but the username. */
  function Results(s: Session, store: seq<ScoreRow>): (r: ResultsStep)
    ensures var name := s.username.GetOr(DefaultUsername);
            var score := if s.quiz.Some? then s.quiz.value.score else 0;
            && (score > 0 && name != DefaultUsername ==> r.store == store + [ScoreRow(name, score)])
            && (!(score > 0 && name != DefaultUsername) ==> r.store == store)
            && r.page.ResultsPage?
            && r.page.username == name && r.page.score == score
    ensures r.page.ResultsPage? && IsLeaderboard(r.page.topScores, r.store)
    ensures r.page.ResultsPage? && r.page.lastMissed == s.lastMissed && r.page.errorMessage == s.errorMessage
    ensures r.session == Session(s.username, None, None, None)
  {
    var name := s.username.GetOr(DefaultUsername);
    var score := match s.quiz case Some(q) => q.score case None => 0;
    var store' := if score > 0 && name != DefaultUsername then store + [ScoreRow(name, score)] else store;
    ResultsStep(ResultsPage(name, score, Leaderboard(store'), s.lastMissed, s.errorMessage),
                Session(s.username, None, None, None),
                store')
  }
}
