/** The public leaderboard (`GET /api/leaderboard`): the hundred best users
    by points, then by correct predictions, shaped into ranked rows. */
module Leaderboard {
  import opened Common
  import opened Seqs
  import opened Strings
  import opened Models

  const MaxRows: nat := 100
  const AnonymousName: string := "Anonymous"

  datatype Row = Row(rank: nat, username: string, points: int, correctPredictions: int,
                     wrongPredictions: int, badges: seq<string>, streak: int)

  /** `sort({ points: -1, correctPredictions: -1 })`: `a` may come before `b`. */
  predicate Ahead(a: User, b: User) {
    a.points > b.points || (a.points == b.points && a.correctPredictions >= b.correctPredictions)
  }

  lemma AheadIsTotal()
    ensures TotalPreorder(Ahead)
  {
  }

  /** `displayName || email.split('@')[0] || 'Anonymous'`. */
  function Username(u: User): (name: string)
    ensures name != ""
    ensures Present(u.displayName) ==> name == u.displayName.value
    ensures !Present(u.displayName) && BeforeAt(u.email) != "" ==>
              name == BeforeAt(u.email) && StartsWith(u.email, name) && '@' !in name
    ensures !Present(u.displayName) && BeforeAt(u.email) == "" ==> name == AnonymousName
  {
    if Present(u.displayName) then u.displayName.value
    else if BeforeAt(u.email) != "" then BeforeAt(u.email)
    else AnonymousName
  }

  /** One row; the stored numeric fields always exist (the schema gives them
      defaults), so `|| 0` and `|| []` only ever fire on a stored 0 or [],
      which they leave as they are. */
  function RowOf(u: User, rank: nat): (row: Row)
    ensures row.rank == rank && row.username == Username(u)
    ensures row.points == u.points && row.correctPredictions == u.correctPredictions
    ensures row.wrongPredictions == u.wrongPredictions && row.badges == u.badges && row.streak == u.currentStreak
  {
    Row(rank, Username(u), u.points, u.correctPredictions, u.wrongPredictions, u.badges, u.currentStreak)
  }

  /** The users the query returns, best first. */
  function Top(users: seq<User>): (top: seq<User>)
    ensures |top| == Min(|users|, MaxRows)
    ensures forall i, j | 0 <= i < j < |top| :: Ahead(top[i], top[j])
    ensures multiset(top) <= multiset(users)
    ensures forall x | x in multiset(users) - multiset(top) :: |top| == MaxRows && Ahead(top[|top| - 1], x)
  {
    AheadIsTotal();
    var sorted := Sort(users, Ahead);
    var top := Take(sorted, MaxRows);
    CutOff(sorted, top);
    top
  }

  /** In a sorted list, everything past a prefix ranks at or below the
      prefix's last element. */
  lemma CutOff(sorted: seq<User>, top: seq<User>)
    requires SortedBy(sorted, Ahead) && |top| <= |sorted| && top == sorted[..|top|]
    requires |top| > 0 || |sorted| == 0
    ensures multiset(top) <= multiset(sorted)
    ensures forall x | x in multiset(sorted) - multiset(top) :: 0 < |top| < |sorted| && Ahead(top[|top| - 1], x)
  {
    var rest := sorted[|top|..];
    assert sorted == top + rest;
    assert multiset(sorted) == multiset(top) + multiset(rest);
    forall x | x in multiset(sorted) - multiset(top)
      ensures 0 < |top| < |sorted| && Ahead(top[|top| - 1], x)
    {
      assert x in multiset(rest);
      var k :| 0 <= k < |rest| && rest[k] == x;
      assert sorted[|top| + k] == x;
    }
  }

  /** `GET /api/leaderboard`: row `i` carries rank `i + 1` and the `i`-th
      best user's figures. */
  function Board(users: seq<User>): (rows: seq<Row>)
    ensures |rows| == Min(|users|, MaxRows)
    ensures forall i | 0 <= i < |rows| :: rows[i] == RowOf(Top(users)[i], i + 1)
  {
    var top := Top(users);
    seq(|top|, i requires 0 <= i < |top| => RowOf(top[i], i + 1))
  }

  /** Ranks run 1, 2, …, n with no gaps and no repeats, even among equal
      scores; rows are ordered by points, then correct predictions; no
      user left off the board has a better score than the last row. */
  lemma BoardIsRanked(users: seq<User>)
    ensures var rows := Board(users);
            && (forall i | 0 <= i < |rows| :: rows[i].rank == i + 1)
            && (forall i, j | 0 <= i < j < |rows| :: rows[i].rank != rows[j].rank)
            && (forall i, j | 0 <= i < j < |rows| ::
                  rows[i].points > rows[j].points
                  || (rows[i].points == rows[j].points && rows[i].correctPredictions >= rows[j].correctPredictions))
            && (forall x | x in multiset(users) - multiset(Top(users)) ::
                  |rows| == MaxRows && (rows[|rows| - 1].points > x.points
                  || (rows[|rows| - 1].points == x.points && rows[|rows| - 1].correctPredictions >= x.correctPredictions)))
  {
    var rows := Board(users);
    var top := Top(users);
    forall i, j | 0 <= i < j < |rows|
      ensures rows[i].points > rows[j].points
              || (rows[i].points == rows[j].points && rows[i].correctPredictions >= rows[j].correctPredictions)
    {
      assert Ahead(top[i], top[j]);
    }
  }
}
