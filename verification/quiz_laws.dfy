/** Properties of the quiz routes that span several requests. */
module QuizLaws {

  import opened Optional
  import opened Bank
  import opened Scores
  import opened Quiz

  /** One request to the question route together with the shuffle it would
      use if it has to wrap around. */
  datatype Turn = Turn(request: Request, shuffled: seq<int>)

  datatype Run = Run(session: Session, pages: seq<Page>)

  /** Every shuffle offered in `turns` is a permutation of the bank's indices. */
  ghost predicate Shuffles(turns: seq<Turn>, n: nat) {
    forall i :: 0 <= i < |turns| ==> IsPermutation(turns[i].shuffled, n)
  }

  /** Sends the requests of `turns` to the question route one after another. */
  function Play(s: Session, bank: seq<Question>, turns: seq<Turn>): (r: Run)
    requires Inv(s, bank) && Shuffles(turns, |bank|)
    ensures Inv(r.session, bank)
    ensures |r.pages| == |turns|
    ensures s.quiz.Some? ==> r.session.quiz.Some?
    decreases |turns|
  {
    if |turns| == 0 then Run(s, [])
    else
      var step := AskQuestion(s, bank, turns[0].shuffled, turns[0].request);
      var rest := Play(step.session, bank, turns[1..]);
      Run(rest.session, [step.page] + rest.pages)
  }

  /** How many of `pages` report a correct answer. */
  function CountCorrect(pages: seq<Page>): nat {
    if |pages| == 0 then 0
    else (if pages[0].FeedbackPage? && pages[0].isCorrect then 1 else 0) + CountCorrect(pages[1..])
  }

  /** A session that never visited the quiz satisfies the invariant. */
  lemma FreshSessionIsValid(bank: seq<Question>, username: Option<string>)
    ensures Inv(Session(username, None, None, None), bank)
  {
  }

  /** Starting on a non-empty bank begins a run at score 0 and cursor 0 over
      an order that holds every question exactly once, and the first question
      shown is the first of that order, numbered 1. */
  lemma StartBeginsFreshRun(s: Session, bank: seq<Question>, shuffled: seq<int>, shuffled': seq<int>)
    requires |bank| > 0
    requires IsPermutation(shuffled, |bank|) && IsPermutation(shuffled', |bank|)
    ensures var r := Start(s, bank, shuffled);
            && r.session.quiz.Some?
            && var q := r.session.quiz.value;
            && q.score == 0 && q.position == 0
            && (forall k :: 0 <= k < |bank| ==> k in q.order)
            && (forall i, j :: 0 <= i < j < |q.order| ==> q.order[i] != q.order[j])
            && Inv(r.session, bank)
            && AskQuestion(r.session, bank, shuffled', View).page == QuestionPage(bank[shuffled[0]], 1)
  {
    PermutationCovers(shuffled, |bank|);
  }

  /** Starting on an empty bank records the error and leads to the results
      page without creating any quiz state. */
  lemma EmptyBankCannotStart(s: Session, bank: seq<Question>, shuffled: seq<int>)
    requires |bank| == 0 && Inv(s, bank)
    requires IsPermutation(shuffled, |bank|)
    ensures var r := Start(s, bank, shuffled);
            && r.page == RedirectToResults
            && r.session.errorMessage == Some(BankMissingMessage)
            && r.session.quiz.None?
  {
  }

  /** Showing a question displays the question the cursor is at, after any
      wrap-around, numbered one past the score, and changes nothing else. */
  lemma ViewShowsCurrentQuestion(s: Session, bank: seq<Question>, shuffled: seq<int>)
    requires Inv(s, bank) && s.quiz.Some?
    requires IsPermutation(shuffled, |bank|)
    ensures var w := Wrap(s.quiz.value, |bank|, shuffled);
            var r := AskQuestion(s, bank, shuffled, View);
            && w.position < |bank|
            && 0 <= w.order[w.position] < |bank|
            && r.page == QuestionPage(bank[w.order[w.position]], s.quiz.value.score + 1)
            && r.session == s.(quiz := Some(w))
  {
  }

  /** Once the cursor is past the last question, the next request (a view or
      an answer) runs on the fresh order, starting from its first question. */
  lemma WrapAroundReshuffles(s: Session, bank: seq<Question>, shuffled: seq<int>, req: Request)
    requires Inv(s, bank) && s.quiz.Some? && s.quiz.value.position >= |bank|
    requires IsPermutation(shuffled, |bank|)
    ensures var r := AskQuestion(s, bank, shuffled, req);
            && r.session.quiz.Some?
            && r.session.quiz.value.order == shuffled
            && r.session.quiz.value.position <= 1
            && (r.page.QuestionPage? || r.page.FeedbackPage?)
            && r.page.question == bank[shuffled[0]]
  {
  }

  /** Showing the question again without answering it shows the same
      question and leaves the session as it was, whatever shuffle the second
      request would have used. */
  lemma ViewIsIdempotent(s: Session, bank: seq<Question>, shuffled1: seq<int>, shuffled2: seq<int>)
    requires Inv(s, bank)
    requires IsPermutation(shuffled1, |bank|) && IsPermutation(shuffled2, |bank|)
    ensures var r1 := AskQuestion(s, bank, shuffled1, View);
            AskQuestion(r1.session, bank, shuffled2, View) == r1
  {
  }

  /** The answer posted after a question was shown is judged against that
      very question. */
  lemma AnswerJudgesShownQuestion(s: Session, bank: seq<Question>, shuffled1: seq<int>, shuffled2: seq<int>, option: Option<string>)
    requires Inv(s, bank) && s.quiz.Some?
    requires IsPermutation(shuffled1, |bank|) && IsPermutation(shuffled2, |bank|)
    ensures var shown := AskQuestion(s, bank, shuffled1, View);
            var judged := AskQuestion(shown.session, bank, shuffled2, Answer(option));
            && shown.page.QuestionPage? && judged.page.FeedbackPage?
            && judged.page.question == shown.page.question
  {
  }

  /** A posted answer scores exactly when it is a real answer equal to the
      key. A scoring answer adds one to the score, moves the cursor one
      step along the unchanged order and leads back to the question route.
      Any other answer, including the timeout signal and an empty or missing
      one, leaves order, cursor and score as they were, records the missed
      question and leads to the results page. */
  lemma AnswerOutcome(s: Session, bank: seq<Question>, shuffled: seq<int>, option: Option<string>)
    requires Inv(s, bank) && s.quiz.Some?
    requires IsPermutation(shuffled, |bank|)
    ensures var w := Wrap(s.quiz.value, |bank|, shuffled);
            var question := bank[w.order[w.position]];
            var r := AskQuestion(s, bank, shuffled, Answer(option));
            var scores := IsRealAnswer(option) && option.value == question.answer;
            && r.page.FeedbackPage?
            && r.page.question == question
            && r.page.correctAnswer == question.answer
            && (r.page.isCorrect <==> scores)
            && (scores ==>
                  && r.session == s.(quiz := Some(QuizState(w.order, w.position + 1, w.score + 1)))
                  && r.page.next == ToQuestion)
            && (!scores ==>
                  && r.session.quiz == Some(w)
                  && r.session.lastMissed == Some(Missed(question.text, r.page.userAnswer, question.answer, question.explanation))
                  && r.page.next == ToResults)
            && (!IsRealAnswer(option) ==> !r.page.isCorrect && r.page.userAnswer == NoAnswerLabel)
            && (IsRealAnswer(option) ==> r.page.userAnswer == option.value)
  {
    assert Wrap(s.quiz.value, |bank|, shuffled).position < |bank|;
  }

  /** A miss does not lock the quiz: the session keeps the missed question at
      the cursor, so posting its key to the question route again scores. */
  lemma RetryAfterMissScores(s: Session, bank: seq<Question>, shuffled1: seq<int>, shuffled2: seq<int>, wrong: Option<string>)
    requires Inv(s, bank) && s.quiz.Some?
    requires IsPermutation(shuffled1, |bank|) && IsPermutation(shuffled2, |bank|)
    requires var w := Wrap(s.quiz.value, |bank|, shuffled1);
             var key := bank[w.order[w.position]].answer;
             key != "" && key != TimeoutSignal && !(IsRealAnswer(wrong) && wrong.value == key)
    ensures var w := Wrap(s.quiz.value, |bank|, shuffled1);
            var key := bank[w.order[w.position]].answer;
            var miss := AskQuestion(s, bank, shuffled1, Answer(wrong));
            var retry := AskQuestion(miss.session, bank, shuffled2, Answer(Some(key)));
            && miss.page.FeedbackPage? && !miss.page.isCorrect
            && retry.page.FeedbackPage? && retry.page.isCorrect
            && retry.session.quiz.Some? && retry.session.quiz.value.score == s.quiz.value.score + 1
  {
    AnswerOutcome(s, bank, shuffled1, wrong);
    var miss := AskQuestion(s, bank, shuffled1, Answer(wrong));
    AnswerOutcome(miss.session, bank, shuffled2, Some(bank[miss.session.quiz.value.order[miss.session.quiz.value.position]].answer));
  }

  /** Over any sequence of requests to the question route, the score grows
      by exactly the number of answers reported correct: views and misses
      never change it. */
  lemma {:induction false} ScoreCountsCorrectAnswers(s: Session, bank: seq<Question>, turns: seq<Turn>)
    requires Inv(s, bank) && s.quiz.Some? && Shuffles(turns, |bank|)
    ensures var r := Play(s, bank, turns);
            r.session.quiz.Some? && r.session.quiz.value.score == s.quiz.value.score + CountCorrect(r.pages)
    decreases |turns|
  {
    if |turns| > 0 {
      var step := AskQuestion(s, bank, turns[0].shuffled, turns[0].request);
      match turns[0].request {
        case View =>
          ViewShowsCurrentQuestion(s, bank, turns[0].shuffled);
        case Answer(option) =>
          AnswerOutcome(s, bank, turns[0].shuffled, option);
      }
      assert Shuffles(turns[1..], |bank|);
      ScoreCountsCorrectAnswers(step.session, bank, turns[1..]);
      var rest := Play(step.session, bank, turns[1..]);
      assert Play(s, bank, turns).pages == [step.page] + rest.pages;
      assert ([step.page] + rest.pages)[1..] == rest.pages;
    }
  }

  /** Each of `turns` posts the key of the question the order `o` holds at
      cursor `p` plus the turn's place, and that key is a real answer. */
  ghost predicate PostsKeysFrom(turns: seq<Turn>, bank: seq<Question>, o: seq<int>, p: int) {
    forall i :: 0 <= i < |turns| ==>
      && 0 <= p + i < |o|
      && 0 <= o[p + i] < |bank|
      && turns[i].request == Answer(Some(bank[o[p + i]].answer))
      && IsRealAnswer(turns[i].request.option)
  }

  /** A full pass: from cursor `p` of order `o`, answering each remaining
      question correctly shows the questions of `o` one after another, every
      answer scores, and the run ends with the cursor at the end of the same
      order, ready to wrap, having scored once per question. */
  lemma {:induction false} FullPass(s: Session, bank: seq<Question>, turns: seq<Turn>, o: seq<int>, p: int, sc: int)
    requires Inv(s, bank) && s.quiz == Some(QuizState(o, p, sc))
    requires 0 <= p && |turns| == |bank| - p
    requires Shuffles(turns, |bank|) && PostsKeysFrom(turns, bank, o, p)
    ensures var r := Play(s, bank, turns);
            && r.session.quiz == Some(QuizState(o, |bank|, sc + |bank| - p))
            && forall i :: 0 <= i < |turns| ==>
                 && r.pages[i].FeedbackPage?
                 && r.pages[i].isCorrect
                 && r.pages[i].question == bank[o[p + i]]
    decreases |turns|
  {
    if |turns| > 0 {
      AnswerOutcome(s, bank, turns[0].shuffled, turns[0].request.option);
      var step := AskQuestion(s, bank, turns[0].shuffled, turns[0].request);
      assert Shuffles(turns[1..], |bank|);
      assert PostsKeysFrom(turns[1..], bank, o, p + 1) by {
        forall i | 0 <= i < |turns[1..]|
          ensures 0 <= p + 1 + i < |o| && turns[1..][i] == turns[i + 1]
        {
        }
      }
      FullPass(step.session, bank, turns[1..], o, p + 1, sc + 1);
    }
  }

  /** The two-question streak: with keys "A" and "B" and the order [0, 1],
      answering "A" then "B" scores 2 and play continues; the next request
      wraps around to a fresh order. */
  lemma TwoQuestionStreak(s: Session, shuffled: seq<int>)
    requires IsPermutation(shuffled, 2)
    ensures var bank := [Question("q1", ["A", "B"], "A", "e1"), Question("q2", ["A", "B"], "B", "e2")];
            var started := Start(s, bank, [0, 1]);
            var first := AskQuestion(started.session, bank, shuffled, Answer(Some("A")));
            var second := AskQuestion(first.session, bank, shuffled, Answer(Some("B")));
            && first.page.FeedbackPage? && first.page.isCorrect
            && second.page.FeedbackPage? && second.page.isCorrect && second.page.next == ToQuestion
            && second.session.quiz == Some(QuizState([0, 1], 2, 2))
            && AskQuestion(second.session, bank, shuffled, View).session.quiz == Some(QuizState(shuffled, 0, 2))
  {
    var bank := [Question("q1", ["A", "B"], "A", "e1"), Question("q2", ["A", "B"], "B", "e2")];
    assert IsPermutation([0, 1], 2);
  }

  /** The results page appends one row exactly when the score is positive
      and the user is not the default "Player"; rows already stored are
      never changed. */
  lemma ResultsRecordsOnlyQualifiedRuns(s: Session, store: seq<ScoreRow>)
    ensures var r := Results(s, store);
            var name := s.username.GetOr(DefaultUsername);
            var score := if s.quiz.Some? then s.quiz.value.score else 0;
            && (|r.store| == |store| + 1 <==> score > 0 && name != DefaultUsername)
            && (|r.store| == |store| || |r.store| == |store| + 1)
            && r.store[..|store|] == store
            && (|r.store| == |store| + 1 ==> r.store[|store|] == ScoreRow(name, score))
  {
  }

  /** The leaderboard on the results page already includes the run just
      recorded: its user is listed with at least that score, or it scores no
      more than any line shown. */
  lemma LeaderboardSeesNewRow(s: Session, store: seq<ScoreRow>)
    requires s.quiz.Some? && s.quiz.value.score > 0
    requires s.username.Some? && s.username.value != DefaultUsername
    ensures var r := Results(s, store);
            var row := ScoreRow(s.username.value, s.quiz.value.score);
            && r.page.ResultsPage?
            && (forall i :: 0 <= i < |r.page.topScores| && r.page.topScores[i].username == row.username ==>
                  r.page.topScores[i].score >= row.score)
            && (!Listed(r.page.topScores, row.username) ==>
                  forall i :: 0 <= i < |r.page.topScores| ==> row.score <= r.page.topScores[i].score)
  {
    var r := Results(s, store);
    var row := ScoreRow(s.username.value, s.quiz.value.score);
    assert r.store[|store|] == row;
    assert row in r.store;
  }

  /** A second visit to the results page records nothing: the first one
      removed the score, so a run is stored at most once. */
  lemma ResultsRecordsRunOnce(s: Session, store: seq<ScoreRow>, later: seq<ScoreRow>)
    ensures var first := Results(s, store);
            var second := Results(first.session, later);
            && second.store == later
            && second.page.ResultsPage? && second.page.score == 0
            && second.page.lastMissed.None? && second.page.errorMessage.None?
            && second.session == first.session
  {
  }

  /** After the results page the quiz is gone and the question route sends
      the user back to the start. */
  lemma ResultsEndsTheRun(s: Session, store: seq<ScoreRow>, bank: seq<Question>, shuffled: seq<int>, req: Request)
    requires IsPermutation(shuffled, |bank|)
    ensures var done := Results(s, store);
            && Inv(done.session, bank)
            && done.session.username == s.username
            && AskQuestion(done.session, bank, shuffled, req).page == RedirectToStart
  {
  }
}
