/** The score table and the leaderboard query run over it after each quiz.
    The table is an append-only sequence of rows; the query groups rows by
    username, keeps each user's maximum, orders by that maximum descending
    and keeps the first ten. */
module Scores {

  import Bank

  /** One row of the score table (its id and timestamp are not modelled),
      and also one line of the leaderboard: a user with their best score. */
  datatype ScoreRow = ScoreRow(username: string, score: int)

  /** The query's `LIMIT`. */
  const BoardSize: nat := 10

  /** Every username that has at least one row. */
  function UserSet(rows: seq<ScoreRow>): set<string> {
    set r | r in rows :: r.username
  }

  /** `m` is the maximum score over the rows of user `u`: some row of `u`
      carries it and no row of `u` beats it. */
  ghost predicate IsBest(rows: seq<ScoreRow>, u: string, m: int) {
    && ScoreRow(u, m) in rows
    && forall r :: r in rows && r.username == u ==> r.score <= m
  }

  /** No username occurs twice. */
  predicate DistinctUsers(s: seq<ScoreRow>) {
    forall i, j :: 0 <= i < j < |s| ==> s[i].username != s[j].username
  }

  /** Scores never increase along `s`. */
  predicate SortedDesc(s: seq<ScoreRow>) {
    forall i, j :: 0 <= i < j < |s| ==> s[i].score >= s[j].score
  }

  /** Some line of `board` belongs to user `u`. */
  predicate Listed(board: seq<ScoreRow>, u: string) {
    exists i :: 0 <= i < |board| && board[i].username == u
  }

  /** What `SELECT username, MAX(score) ... GROUP BY username ORDER BY
      MAX(score) DESC LIMIT 10` may return on `rows`: at most ten lines, one
      per user, each the user's maximum, in non-increasing order; a user left
      out scores no more than any line shown, and fewer than ten lines means
      nobody was left out. The order among equal scores is not fixed. */
  ghost predicate IsLeaderboard(board: seq<ScoreRow>, rows: seq<ScoreRow>) {
    && |board| <= BoardSize
    && DistinctUsers(board)
    && (forall i :: 0 <= i < |board| ==> IsBest(rows, board[i].username, board[i].score))
    && SortedDesc(board)
    && (forall r :: r in rows && !Listed(board, r.username) ==>
          forall i :: 0 <= i < |board| ==> r.score <= board[i].score)
    && (|board| < BoardSize ==> forall r :: r in rows ==> Listed(board, r.username))
  }

  /** The maximum score of user `u`, who has at least one row. */
  function Best(rows: seq<ScoreRow>, u: string): (m: int)
    requires u in UserSet(rows)
    ensures IsBest(rows, u, m)
    decreases |rows|
  {
    var init := rows[..|rows| - 1];
    var last := rows[|rows| - 1];
    assert rows == init + [last];
    if last.username != u then
      Best(init, u)
    else if u !in UserSet(init) then
      last.score
    else
      var m := Best(init, u);
      if m < last.score then last.score else m
  }

  /** The users that have rows, each once, in order of their first row. */
  function Users(rows: seq<ScoreRow>): (us: seq<string>)
    ensures forall i, j :: 0 <= i < j < |us| ==> us[i] != us[j]
    ensures forall u :: u in us <==> u in UserSet(rows)
    decreases |rows|
  {
    if |rows| == 0 then []
    else
      var init := rows[..|rows| - 1];
      var last := rows[|rows| - 1];
      assert rows == init + [last];
      var us := Users(init);
      if last.username in us then us else us + [last.username]
  }

  /** One line per user in `us`, carrying that user's maximum. */
  function BestOfEach(rows: seq<ScoreRow>, us: seq<string>): (g: seq<ScoreRow>)
    requires forall u :: u in us ==> u in UserSet(rows)
    ensures |g| == |us|
    ensures forall i :: 0 <= i < |g| ==> g[i].username == us[i] && IsBest(rows, us[i], g[i].score)
  {
    if |us| == 0 then [] else [ScoreRow(us[0], Best(rows, us[0]))] + BestOfEach(rows, us[1..])
  }

  /** The `GROUP BY username` with `MAX(score)`: one line per user holding
      the user's best score. */
  function Group(rows: seq<ScoreRow>): (g: seq<ScoreRow>)
    ensures DistinctUsers(g)
    ensures forall i :: 0 <= i < |g| ==> IsBest(rows, g[i].username, g[i].score)
    ensures forall r :: r in rows ==> Listed(g, r.username)
  {
    var us := Users(rows);
    var g := BestOfEach(rows, us);
    assert forall r :: r in rows ==> r.username in UserSet(rows);
    assert forall u :: u in us ==> Listed(g, u) by {
      forall u | u in us
        ensures Listed(g, u)
      {
        var k :| 0 <= k < |us| && us[k] == u;
        assert g[k].username == u;
      }
    }
    g
  }

  /** Puts `e` into the descending sequence `s`, ahead of the first line it
      is not below. */
  function Insert(e: ScoreRow, s: seq<ScoreRow>): (r: seq<ScoreRow>)
    requires SortedDesc(s)
    ensures SortedDesc(r)
    ensures multiset(r) == multiset(s) + multiset{e}
    ensures forall x :: x in r <==> x == e || x in s
  {
    if |s| == 0 || e.score >= s[0].score then
      [e] + s
    else
      var rest := Insert(e, s[1..]);
      assert s == [s[0]] + s[1..];
      assert forall j :: 0 <= j < |rest| ==> s[0].score >= rest[j].score by {
        forall j | 0 <= j < |rest|
          ensures s[0].score >= rest[j].score
        {
          assert rest[j] in rest;
        }
      }
      var r := [s[0]] + rest;
      assert forall i :: 1 <= i < |r| ==> r[i] == rest[i - 1];
      r
  }

  /** Inserting a user who is not yet listed keeps the users distinct. */
  lemma {:induction false} InsertKeepsDistinct(e: ScoreRow, s: seq<ScoreRow>)
    requires SortedDesc(s) && DistinctUsers(s)
    requires forall x :: x in s ==> x.username != e.username
    ensures DistinctUsers(Insert(e, s))
  {
    if |s| > 0 && e.score < s[0].score {
      assert s == [s[0]] + s[1..];
      InsertKeepsDistinct(e, s[1..]);
      var rest := Insert(e, s[1..]);
      forall x | x in rest
        ensures x.username != s[0].username
      {
        if x != e {
          var k :| 0 <= k < |s[1..]| && s[1..][k] == x;
          assert s[k + 1] == x;
        }
      }
      assert Insert(e, s) == [s[0]] + rest;
    }
  }

  /** The `ORDER BY MAX(score) DESC`: an insertion sort, so a reordering of
      its input in non-increasing score order. */
  function SortDesc(s: seq<ScoreRow>): (r: seq<ScoreRow>)
    ensures SortedDesc(r)
    ensures multiset(r) == multiset(s)
    ensures forall x :: x in r <==> x in s
  {
    if |s| == 0 then []
    else
      assert s == [s[0]] + s[1..];
      Insert(s[0], SortDesc(s[1..]))
  }

  /** Sorting lines that name distinct users keeps them distinct. */
  lemma {:induction false} SortKeepsDistinct(s: seq<ScoreRow>)
    requires DistinctUsers(s)
    ensures DistinctUsers(SortDesc(s))
  {
    if |s| > 0 {
      assert s == [s[0]] + s[1..];
      SortKeepsDistinct(s[1..]);
      var rest := SortDesc(s[1..]);
      forall x | x in rest
        ensures x.username != s[0].username
      {
        var j :| 0 <= j < |s[1..]| && s[1..][j] == x;
        assert s[j + 1] == x;
      }
      InsertKeepsDistinct(s[0], rest);
    }
  }

  /** The `LIMIT 10`: the first `BoardSize` lines, or all of them. */
  function Top(s: seq<ScoreRow>): (t: seq<ScoreRow>)
    ensures |t| <= BoardSize
    ensures |t| == |s| || |t| == BoardSize
    ensures t <= s
  {
    if |s| <= BoardSize then s else s[..BoardSize]
  }

  /** Cutting a sorted per-user grouping to its first ten lines answers the
      leaderboard query. */
  lemma TopIsLeaderboard(sorted: seq<ScoreRow>, rows: seq<ScoreRow>)
    requires SortedDesc(sorted) && DistinctUsers(sorted)
    requires forall i :: 0 <= i < |sorted| ==> IsBest(rows, sorted[i].username, sorted[i].score)
    requires forall r :: r in rows ==> Listed(sorted, r.username)
    ensures IsLeaderboard(Top(sorted), rows)
  {
    var board := Top(sorted);
    assert forall i :: 0 <= i < |board| ==> board[i] == sorted[i];
    forall r, i | r in rows && !Listed(board, r.username) && 0 <= i < |board|
      ensures r.score <= board[i].score
    {
      var k :| 0 <= k < |sorted| && sorted[k].username == r.username;
      assert k >= |board|;
      assert IsBest(rows, sorted[k].username, sorted[k].score);
    }
  }

  /** The leaderboard the quiz shows: one admissible answer of the query. */
  function Leaderboard(rows: seq<ScoreRow>): (board: seq<ScoreRow>)
    ensures IsLeaderboard(board, rows)
  {
    var g := Group(rows);
    var sorted := SortDesc(g);
    SortKeepsDistinct(g);
    assert forall i :: 0 <= i < |sorted| ==> IsBest(rows, sorted[i].username, sorted[i].score) by {
      forall i | 0 <= i < |sorted|
        ensures IsBest(rows, sorted[i].username, sorted[i].score)
      {
        assert sorted[i] in g;
      }
    }
    assert forall r :: r in rows ==> Listed(sorted, r.username) by {
      forall r | r in rows
        ensures Listed(sorted, r.username)
      {
        var k :| 0 <= k < |g| && g[k].username == r.username;
        assert g[k] in sorted;
      }
    }
    TopIsLeaderboard(sorted, rows);
    Top(sorted)
  }

  /** Lines naming distinct users name as many users as there are lines. */
  lemma {:induction false} DistinctUsersCount(s: seq<ScoreRow>)
    requires DistinctUsers(s)
    ensures |UserSet(s)| == |s|
  {
    if |s| > 0 {
      var init := s[..|s| - 1];
      var last := s[|s| - 1];
      assert s == init + [last];
      DistinctUsersCount(init);
      assert last.username !in UserSet(init);
      assert UserSet(s) == UserSet(init) + {last.username};
    }
  }

  /** The grouped example: rows (alice, 5), (alice, 9), (bob, 7) admit exactly
      one leaderboard, alice with 9 above bob with 7. */
  lemma OnlyLeaderboardOfExample(board: seq<ScoreRow>)
    requires IsLeaderboard(board, [ScoreRow("alice", 5), ScoreRow("alice", 9), ScoreRow("bob", 7)])
    ensures board == [ScoreRow("alice", 9), ScoreRow("bob", 7)]
  {
    var rows := [ScoreRow("alice", 5), ScoreRow("alice", 9), ScoreRow("bob", 7)];
    assert forall i :: 0 <= i < |board| ==> board[i] == ScoreRow("alice", 9) || board[i] == ScoreRow("bob", 7) by {
      forall i | 0 <= i < |board|
        ensures board[i] == ScoreRow("alice", 9) || board[i] == ScoreRow("bob", 7)
      {
        assert IsBest(rows, board[i].username, board[i].score);
        assert rows[1] in rows;
      }
    }
    DistinctUsersCount(board);
    Bank.SubsetCount(UserSet(board), {"alice", "bob"});
    assert rows[0] in rows && rows[2] in rows;
    assert Listed(board, "alice") && Listed(board, "bob");
    assert |board| == 2;
    assert board[0].score >= board[1].score;
  }
}
