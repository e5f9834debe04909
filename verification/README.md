# Pancasila quiz game: the streak quiz and the story tracker, in Dafny

This project models the two pieces of logic in the game's two Flask servers.

**The endless streak quiz (`app.py`).** It is a per-session state machine over a fixed question bank of size N. Its session keys are:

- `q_indices`: a shuffled order of the bank's indices.
- `current_q_index`: a cursor into that order.
- `score`: the number of correct answers so far.
- `last_q_data`: the missed question.
- `error_message` and `username`.

The routes behave as follows:

- `/start` resets the run.
- `/question` shows the question at the cursor, or judges a posted answer. Once the cursor runs past the end, it first reshuffles and wraps around.
- `/results` may store the run's score, then reads the leaderboard and clears the quiz keys.

Each route is modelled as a pure function. It takes the session record (module `Quiz`) and returns the page it answers with plus the session it leaves behind. `/results` also takes and returns the score table, modelled as a sequence of `(username, score)` rows.

The leaderboard is the query "group by username, take the maximum score, order by it descending, limit 10". It is stated as the ghost predicate `Scores.IsLeaderboard`, which leaves the order among equal scores open. The deterministic `Scores.Leaderboard` is proved to be one admissible answer of that query.

**The story-progress tracker (`server.py`).** The session holds at most one `{scene, event_index}` record. Saving progress and completing a scene overwrite it. The current-scene route and the session-data route only read it (module `Story`). Which scene files exist is a set of scene ids; scene contents are opaque.

Randomness is a parameter. Every route that may shuffle receives the shuffled order `shuffled` and requires it to be a permutation of `[0, N)` (`Bank.IsPermutation`).

Modules: `Optional` (absent-or-present values), `Bank` (questions and permutations), `Scores` (score rows and the leaderboard), `Quiz` and `QuizLaws` (the quiz routes and their properties), `Story` and `StoryLaws` (the story routes and their properties).

## Behaviour to note

- A wrong answer leaves order, cursor and score as they were. Only the feedback page's "next" link points to `/results`, so posting to `/question` again retries the same question (`QuizLaws.RetryAfterMissScores`).
- A run is stored only when its score is positive *and* the username is not `"Player"`. A missing username counts as `"Player"`.
- Starting on an empty bank sets `error_message` and redirects to `/results`. No quiz keys are created.
- A missing scene file gives a 404 naming the scene, for every scene id including `"scene_1"`.

## Model

| member | source | states |
|---|---|---|
| Bank.Range | app.py:57 | `list(range(n))` lists index i at place i, and it is a permutation of `[0, n)` |
| Bank.PermutationCovers | app.py:57-59 | a shuffled order of length n with distinct entries in `[0, n)` contains every index of the bank; with `QuizLaws.FullPass` this means a pass through the order shows every question exactly once before it wraps |
| Scores.Best | app.py:158-161 | the value computed for a user is the maximum of that user's rows: some row of the user carries it and none beats it |
| Scores.Users | app.py:161 | grouping lists each user that has a row exactly once, and no one else |
| Scores.Group | app.py:158-161 | the group-by yields one line per user, distinct usernames, each line the user's maximum, and every user with a row is listed |
| Scores.SortDesc | app.py:162 | ordering by the maximum descending is a reordering of the grouped lines (same multiset) whose scores never increase |
| Scores.Top | app.py:163 | the limit keeps a prefix of at most 10 lines, all of them when there are fewer |
| Scores.TopIsLeaderboard | app.py:157-163 | the first ten lines of a sorted per-user grouping answer the leaderboard query, including that a user left out scores no more than any line shown |
| Scores.Leaderboard | app.py:157-163 | the computed leaderboard has at most 10 lines with distinct users, each the user's maximum, in non-increasing order; users left out score no higher than every listed line; fewer than 10 lines means every user is listed |
| Scores.OnlyLeaderboardOfExample | app.py:157-163 | for rows (alice, 5), (alice, 9), (bob, 7) the only admissible leaderboard is (alice, 9) then (bob, 7) |
| Quiz.Start | app.py:48-62 | on an empty bank only `error_message` is set and the route leads to results; otherwise score 0, cursor 0, the given permutation as order, `last_q_data` removed, leading to the question route; the session invariant is kept |
| Quiz.Wrap | app.py:76-81 | a cursor at or past N is replaced by cursor 0 on the fresh order; a cursor before N leaves the quiz as it was; afterwards the cursor is a valid index into the order |
| Quiz.Classify | app.py:88-97 | an answer scores if and only if it is present, non-empty, not `TIMEOUT_SIGNAL`, and exactly equal to the key; a timeout, empty or missing answer never scores and is recorded as the no-answer label; any other answer is recorded as posted |
| Quiz.Current | app.py:84-85 | the question shown is `bank[k]` for the valid bank index `k` at the cursor of the order |
| Quiz.AskQuestion | app.py:69-133 | without quiz keys the route redirects to start and changes nothing; otherwise the quiz keys stay present, username and error message are untouched, and the session invariant is kept |
| Quiz.Results | app.py:140-176 | one row `(username, score)` is appended when score > 0 and the username (default `"Player"`) is not `"Player"`, else the table is unchanged; the page carries score, name, missed question and error message, plus a leaderboard of the table after the append; the session keeps only the username |
| QuizLaws.Play | app.py:64-133 | any sequence of requests to the question route keeps the session invariant and keeps a running quiz running |
| QuizLaws.FreshSessionIsValid | app.py:33-41 | a session holding at most a username satisfies the invariant the question route relies on |
| QuizLaws.StartBeginsFreshRun | app.py:52-62 | after a start on a non-empty bank: score 0, cursor 0, every index exactly once in the order, and the first question shown is the order's first, numbered 1 |
| QuizLaws.EmptyBankCannotStart | app.py:48-50 | starting on an empty bank records the error message, leads to results and creates no quiz state |
| QuizLaws.ViewShowsCurrentQuestion | app.py:72-133 | showing a question displays the question at the (wrapped) cursor, numbered score + 1, and changes nothing but the wrap |
| QuizLaws.WrapAroundReshuffles | app.py:76-85 | once the cursor is past the end, the next request runs on the fresh order from its first question |
| QuizLaws.ViewIsIdempotent | app.py:76-85 | showing the question again without answering returns the same page and session, whatever shuffle the second request has |
| QuizLaws.AnswerJudgesShownQuestion | app.py:84-94 | an answer posted after a question was shown is judged against that same question |
| QuizLaws.AnswerOutcome | app.py:87-114 | correct exactly for a real answer equal to the key; correct gives score + 1 and cursor + 1 on the unchanged order, with next going to the question route; otherwise order, cursor and score are unchanged, the missed question is recorded with the answer as shown and next goes to results; a real answer is shown and recorded as posted, while timeouts and empty answers are never correct and show the no-answer label |
| QuizLaws.FullPass | app.py:76-103 | from cursor p of an order, answering each remaining question with its key shows the order's questions one after another, every answer scores, and the run ends at the end of the same order with the score raised once per question, so the next request wraps |
| QuizLaws.RetryAfterMissScores | app.py:104-114 | after a miss the session still sits at the missed question, so posting its key scores |
| QuizLaws.ScoreCountsCorrectAnswers | app.py:99-102 | over any sequence of requests the score grows by exactly the number of answers reported correct |
| QuizLaws.TwoQuestionStreak | app.py:99-103 | with keys "A" and "B" in order [0, 1], answering "A" then "B" scores 2, play continues, and the next view wraps to a fresh order |
| QuizLaws.ResultsRecordsOnlyQualifiedRuns | app.py:143-154 | the table grows by one row if and only if score > 0 and the name is not `"Player"`; existing rows are kept and the new row is `(name, score)` |
| QuizLaws.LeaderboardSeesNewRow | app.py:150-163 | the leaderboard is read after the append: the new run's user is listed with at least that score, or the run scores no more than every line shown |
| QuizLaws.ResultsRecordsRunOnce | app.py:143-168 | a second visit to results stores nothing and shows score 0, because the first visit cleared the score |
| QuizLaws.ResultsEndsTheRun | app.py:165-168 | after results the username is kept, the quiz keys are gone, and the question route redirects to start |
| Story.SelectedScene | server.py:19-20 | the scene is the recorded one when a record exists and its scene is non-null and non-empty, otherwise `"scene_1"` |
| Story.ResumeEvent | server.py:30 | the resume event is the recorded index whenever a record exists (0 if the key is missing), and 0 without a record |
| Story.GetStory | server.py:18-31 | a 404 naming the selected scene exactly when its file is missing, else the scene with the resume event; the record is not modified |
| Story.SaveProgress | server.py:37-44 | the record becomes the posted scene with the posted event index, or 0 when none was posted |
| Story.SessionData | server.py:50-52 | returns the stored record exactly, without modifying it |
| Story.CompleteScene | server.py:58-65 | the record becomes the posted next scene at event 0 |
| StoryLaws.NoProgressStartsAtFirstScene | server.py:19-30 | without progress, the player gets `"scene_1"` at event 0, or a 404 if that file is missing |
| StoryLaws.SaveThenLoad | server.py:19-42 | after a save, loading resumes the saved scene at the saved event; a save without a scene falls back to `"scene_1"` but keeps the saved event |
| StoryLaws.CompleteThenLoad | server.py:19-63 | after completing a scene, loading starts the next scene (or `"scene_1"`) at event 0 |
| StoryLaws.SaveThenSessionData | server.py:38-52 | the session-data route returns exactly the record a save stored |
| StoryLaws.LastWriteWins | server.py:38-63 | saving and completing overwrite the record: the previous record has no influence |
| StoryLaws.ReadsDoNotWrite | server.py:17-52 | reading the current scene leaves the record unchanged, so a later read sees the stored record |

## Left out

- Flask routing, redirects, templates and HTML: each route's effect is a `Page` value and a new session.
- The SQLAlchemy/SQLite store, `db.create_all`, row ids and timestamps: the table is a sequence of `(username, score)` rows, and the query is a specification (`Scores.IsLeaderboard`). SQL's order among equal maxima is unspecified; `Scores.Leaderboard` fixes one such order.
- `random.shuffle`: the shuffled order is a parameter, required to be a permutation of `[0, N)`. Uniformity is not modelled.
- Loading `questions.json` and the scene files: this is file I/O. The bank is a sequence of `Question` values, and a scene file's existence is membership in a set of ids. The `bonus_health` field is not read by the quiz code, so it is not modelled.
- The home route writes `username` from a form. The model takes the username as part of the session.
- Quiz.AskQuestion: requires the session invariant `Quiz.Inv`: quiz keys only for a non-empty bank, an order that is a permutation of the bank's indices, and a cursor in `[0, N]`. Every session the routes produce satisfies it (each route is proved to keep it, and a session without quiz keys meets it). Sessions that break it are excluded even where the source would serve them without error, for example an order with repeated indices, or a cursor of -1, which Python's negative indexing reads as the last place.
- Story requests: `request.get_json()` returning nothing, a JSON `null` for `event_index`, and non-string scenes or non-integer indices are not modelled. A `null` or missing scene is `None`.
- The scene id is put into a file path unchecked (for example, `..`). The model treats ids only as keys of the set of existing scenes.
- CORS, secret keys, `print` logging and `app.run` are configuration and side effects.
- Concurrency between requests is not modelled. Each route is one sequential transition.
