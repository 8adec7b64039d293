/** Prediction submission (`POST /api/predictions`): the ordered validation
    chain, the creation of the prediction, the day-streak update with its
    bonus points, and the background detector run that follows. */
module Predictions {
  import opened Common
  import opened Strings
  import opened Models
  import opened UserStore

  /** `Match.findById(id)`. */
  function FindMatch(matches: seq<Match>, id: MatchId): (r: Option<Match>)
    ensures r.Some? <==> exists i | 0 <= i < |matches| :: matches[i].id == id
    ensures r.Some? ==> r.value in matches && r.value.id == id
  {
    if |matches| == 0 then None
    else if matches[0].id == id then Some(matches[0])
    else
      assert forall i | 1 <= i < |matches| :: matches[i] == matches[1..][i - 1];
      FindMatch(matches[1..], id)
  }

  // ---------------------------------------------------------- the window

  /** The window has a start instant and it is still ahead. */
  predicate StartsLater(m: Match, now: Millis) {
    m.predictionStartDate.Some? && now < m.predictionStartDate.value
  }

  /** The deadline is strictly behind. */
  predicate DeadlineOver(m: Match, now: Millis) {
    now > m.predictionDeadline
  }

  /** The server accepts the instant: both ends of the window are inclusive. */
  predicate WindowOpen(m: Match, now: Millis) {
    !StartsLater(m, now) && !DeadlineOver(m, now)
  }

  // ------------------------------------------------------------ streaks

  /** The day number of an instant (days are whole UTC days). */
  function Day(t: Millis): int {
    t / MsPerDay
  }

  lemma DayNext(t: Millis)
    ensures Day(t + MsPerDay) == Day(t) + 1
  {
    var q := t / MsPerDay;
    var r := t % MsPerDay;
    assert t + MsPerDay == (q + 1) * MsPerDay + r;
  }

  /** The bonus for reaching a streak on a consecutive day. */
  function StreakBonus(streak: int): (b: int)
    ensures b >= 0
    ensures b > 0 <==> streak == 3 || streak == 5 || streak == 7
  {
    if streak == 3 then 3
    else if streak == 5 then 5
    else if streak == 7 then 10
    else 0
  }

  /** The four user fields the streak code reads and writes. */
  datatype Streak = Streak(current: int, longest: int, points: int, last: Option<Millis>)

  function StreakOf(u: User): Streak {
    Streak(u.currentStreak, u.longestStreak, u.points, u.lastPredictionDate)
  }

  /** The streak bookkeeping of one accepted prediction at `now`. */
  function NextStreak(s: Streak, now: Millis): (r: Streak)
    ensures r.last == Some(now)
    ensures r.points >= s.points
    ensures r.points > s.points ==>
              && s.last.Some? && Day(now) - Day(s.last.value) == 1
              && (r.current == 3 || r.current == 5 || r.current == 7)
    ensures r.longest >= s.longest
    ensures r.longest > s.longest ==> r.longest == r.current == s.current + 1
    // A first prediction starts a streak of one without raising the longest.
    ensures s.last.None? ==> r.current == 1 && r.longest == s.longest && r.points == s.points
    // The next day extends the streak and pays the bonus for the new length.
    ensures s.last.Some? && Day(now) - Day(s.last.value) == 1 ==>
              && r.current == s.current + 1 && r.longest == Max(s.longest, s.current + 1)
              && r.points == s.points + StreakBonus(s.current + 1)
    // A gap of more than a day restarts the streak at one.
    ensures s.last.Some? && Day(now) - Day(s.last.value) > 1 ==>
              r.current == 1 && r.longest == s.longest && r.points == s.points
    // The same day, or an earlier one, leaves the streak alone.
    ensures s.last.Some? && Day(now) - Day(s.last.value) <= 0 ==>
              r.current == s.current && r.longest == s.longest && r.points == s.points
  {
    var v :=
      if s.last.None? then s.(current := 1)
      else
        var diff := Day(now) - Day(s.last.value);
        if diff == 1 then
          var c := s.current + 1;
          Streak(c, Max(s.longest, c), s.points + StreakBonus(c), s.last)
        else if diff > 1 then s.(current := 1)
        else s;
    v.(last := Some(now))
  }

  /** `user.save()` after the streak code: the user with its streak fields
      replaced, everything else as it was. */
  function UpdateStreak(u: User, now: Millis): (r: User)
    ensures StreakOf(r) == NextStreak(StreakOf(u), now)
  {
    var s := NextStreak(StreakOf(u), now);
    u.(currentStreak := s.current, longestStreak := s.longest, points := s.points, lastPredictionDate := s.last)
  }

  /** `UpdateStreak` as the change `user.save()` writes. */
  function StreakAt(now: Millis): User -> User {
    (u: User) => UpdateStreak(u, now)
  }

  /** Only the streak fields, the points and the last prediction date change. */
  lemma StreakTouches(u: User, now: Millis)
    ensures var r := UpdateStreak(u, now);
            r.(currentStreak := u.currentStreak, longestStreak := u.longestStreak, points := u.points,
               lastPredictionDate := u.lastPredictionDate) == u
  {
  }

  /** The points gained over `k` consecutive days starting from no streak:
      +3 on day 3, +5 on day 5 and +10 on day 7. */
  function RunBonus(k: nat): int {
    (if k >= 3 then 3 else 0) + (if k >= 5 then 5 else 0) + (if k >= 7 then 10 else 0)
  }

  /** One accepted prediction on each of `k` consecutive days from `t0`. */
  function DailyRun(s: Streak, t0: Millis, k: nat): Streak
    decreases k
  {
    if k == 0 then s else NextStreak(DailyRun(s, t0, k - 1), t0 + (k - 1) * MsPerDay)
  }

  /** Someone who never predicted and then predicts on `k` consecutive days
      ends with a streak of `k`, a longest streak of `k` from the second day
      on (the first day does not raise it), and the three bonuses earned. */
  lemma {:induction false} ConsecutiveRun(s: Streak, t0: Millis, k: nat)
    requires s.last.None? && k >= 1
    ensures var r := DailyRun(s, t0, k);
            && r.current == k
            && r.longest == (if k >= 2 then Max(s.longest, k) else s.longest)
            && r.points == s.points + RunBonus(k)
            && r.last == Some(t0 + (k - 1) * MsPerDay)
  {
    if k > 1 {
      ConsecutiveRun(s, t0, k - 1);
      var t := t0 + (k - 2) * MsPerDay;
      DayNext(t);
      assert t + MsPerDay == t0 + (k - 1) * MsPerDay;
    }
  }

  /** A second prediction on the same day leaves streaks and points alone,
      so repeating the update at the same instant changes nothing more. */
  lemma SameDayIdempotent(s: Streak, now: Millis)
    ensures NextStreak(NextStreak(s, now), now) == NextStreak(s, now)
  {
  }

  /** A gap of more than one day restarts the streak at 1 without raising
      the longest streak or paying a bonus. */
  lemma GapResets(s: Streak, now: Millis)
    requires s.last.Some? && Day(now) - Day(s.last.value) > 1
    ensures var r := NextStreak(s, now);
            r.current == 1 && r.longest == s.longest && r.points == s.points
  {
  }

  // ---------------------------------------------------------- the route

  datatype PredictReply =
    | PredictUnauthorized
    | PredictMissingField
    | PredictMatchNotFound
    | WindowNotOpened
    | DeadlinePassed
    | MatchNotUpcoming
    | AlreadyPredicted
    | InvalidTeam
    | PredictionCreated(prediction: Prediction)
  {
    function Status(): int {
      match this
      case PredictUnauthorized => 401
      case PredictMatchNotFound => 404
      case PredictionCreated(_) => 201
      case _ => 400
    }
  }

  /** The store writes and the background job, in the order they happen. */
  datatype Effect = SavePrediction(p: Prediction) | SaveUser(u: User) | RunDetector

  datatype PredictOutcome = PredictOutcome(reply: PredictReply, preds: seq<Prediction>, users: seq<User>, effects: seq<Effect>)

  /** All checks of the chain pass for a signed-in player and this match. */
  predicate Acceptable(uid: UserId, team: string, m: Match, preds: seq<Prediction>, now: Millis) {
    && WindowOpen(m, now)
    && m.status == Upcoming
    && !HasPrediction(preds, uid, m.id)
    && (team == m.teamA || team == m.teamB)
  }

  /** The validation chain of `POST /api/predictions`: the reply of the
      first check that fails, in source order, or `None` when all pass. */
  function Rejection(auth: Option<Session>, matchId: Option<string>, team: Option<string>,
                     matches: seq<Match>, preds: seq<Prediction>, now: Millis): (r: Option<PredictReply>)
    ensures r.Some? ==> !r.value.PredictionCreated?
    ensures r == Some(PredictUnauthorized) <==> !IsPlayer(auth)
    ensures r == Some(PredictMissingField) <==> IsPlayer(auth) && !(Present(matchId) && Present(team))
    ensures r == Some(PredictMatchNotFound) <==>
              IsPlayer(auth) && Present(matchId) && Present(team) && FindMatch(matches, matchId.value).None?
    ensures IsPlayer(auth) && Present(matchId) && Present(team) && FindMatch(matches, matchId.value).Some? ==>
              var m := FindMatch(matches, matchId.value).value;
              var uid := auth.value.userId;
              && (r == Some(WindowNotOpened) <==> StartsLater(m, now))
              && (r == Some(DeadlinePassed) <==> !StartsLater(m, now) && DeadlineOver(m, now))
              && (r == Some(MatchNotUpcoming) <==> WindowOpen(m, now) && m.status != Upcoming)
              && (r == Some(AlreadyPredicted) <==>
                    WindowOpen(m, now) && m.status == Upcoming && HasPrediction(preds, uid, m.id))
              && (r == Some(InvalidTeam) <==>
                    WindowOpen(m, now) && m.status == Upcoming && !HasPrediction(preds, uid, m.id)
                    && team.value != m.teamA && team.value != m.teamB)
              && (r.None? <==> Acceptable(uid, team.value, m, preds, now))
  {
    if !IsPlayer(auth) then Some(PredictUnauthorized)
    else if !Present(matchId) || !Present(team) then Some(PredictMissingField)
    else
      var found := FindMatch(matches, matchId.value);
      if found.None? then Some(PredictMatchNotFound)
      else
        var m := found.value;
        if StartsLater(m, now) then Some(WindowNotOpened)
        else if DeadlineOver(m, now) then Some(DeadlinePassed)
        else if m.status != Upcoming then Some(MatchNotUpcoming)
        else if HasPrediction(preds, auth.value.userId, matchId.value) then Some(AlreadyPredicted)
        else if team.value != m.teamA && team.value != m.teamB then Some(InvalidTeam)
        else None
  }

  /** `POST /api/predictions`: a rejected request changes nothing; an
      accepted one saves the prediction, then the user's streak, and only
      then starts the detector. */
  function Predict(auth: Option<Session>, matchId: Option<string>, team: Option<string>,
                   matches: seq<Match>, preds: seq<Prediction>, users: seq<User>, now: Millis): (out: PredictOutcome)
    ensures var rej := Rejection(auth, matchId, team, matches, preds, now);
            && (rej.Some? ==> out == PredictOutcome(rej.value, preds, users, []))
            && (rej.None? <==> out.reply.PredictionCreated?)
    ensures out.reply.PredictionCreated? ==>
              var p := out.reply.prediction;
              && p == NewPrediction(auth.value.userId, matchId.value, team.value, now)
              && out.preds == preds + [p]
              && |out.effects| >= 2
              && out.effects[0] == SavePrediction(p)
              && out.effects[|out.effects| - 1] == RunDetector
              && RunDetector !in out.effects[..|out.effects| - 1]
              && out.users == UpdateUser(users, auth.value.userId, StreakAt(now))
  {
    var rej := Rejection(auth, matchId, team, matches, preds, now);
    if rej.Some? then PredictOutcome(rej.value, preds, users, [])
    else
      var uid := auth.value.userId;
      var p := NewPrediction(uid, matchId.value, team.value, now);
      var effects := AcceptedEffects(p, FindUser(users, uid), now);
      PredictOutcome(PredictionCreated(p), preds + [p], UpdateUser(users, uid, StreakAt(now)), effects)
  }

  /** The writes of an accepted prediction, in order: the prediction, the
      stored user's streak (when the user is stored), then the detector. */
  function AcceptedEffects(p: Prediction, saved: Option<User>, now: Millis): (e: seq<Effect>)
    ensures |e| >= 2 && e[0] == SavePrediction(p)
    ensures e[|e| - 1] == RunDetector && RunDetector !in e[..|e| - 1]
    ensures saved.Some? ==> e[1] == SaveUser(UpdateStreak(saved.value, now))
  {
    var userWrites := if saved.Some? then [SaveUser(UpdateStreak(saved.value, now))] else [];
    var effects := [SavePrediction(p)] + userWrites + [RunDetector];
    assert effects[..|effects| - 1] == [SavePrediction(p)] + userWrites;
    effects
  }

  /** An accepted prediction keeps the `(userId, matchId)` index unique: no
      user ever holds two predictions on one match. */
  lemma PredictKeepsUnique(auth: Option<Session>, matchId: Option<string>, team: Option<string>,
                           matches: seq<Match>, preds: seq<Prediction>, users: seq<User>, now: Millis)
    requires PredictionsUnique(preds)
    ensures PredictionsUnique(Predict(auth, matchId, team, matches, preds, users, now).preds)
  {
    var out := Predict(auth, matchId, team, matches, preds, users, now);
    if out.reply.PredictionCreated? {
      var p := out.reply.prediction;
      var m := FindMatch(matches, matchId.value).value;
      assert !HasPrediction(preds, auth.value.userId, m.id);
      forall i, j | 0 <= i < j < |out.preds|
        ensures out.preds[i].userId != out.preds[j].userId || out.preds[i].matchId != out.preds[j].matchId
      {
        if j == |preds| {
          assert out.preds[i] == preds[i];
        }
      }
    }
  }

  /** When the stored team names are trimmed, the stored prediction names
      one of the match's two teams. */
  lemma CreatedTeamIsPlaying(auth: Option<Session>, matchId: Option<string>, team: Option<string>,
                             matches: seq<Match>, preds: seq<Prediction>, users: seq<User>, now: Millis)
    requires forall m | m in matches :: Trim(m.teamA) == m.teamA && Trim(m.teamB) == m.teamB
    ensures var out := Predict(auth, matchId, team, matches, preds, users, now);
            out.reply.PredictionCreated? ==>
              var m := FindMatch(matches, matchId.value).value;
              out.reply.prediction.predictedTeam in {m.teamA, m.teamB}
  {
  }

  /** A successful prediction by a stored user saves that user with the
      streak update at `now` applied, and the store reads it back so. */
  lemma CreatedUpdatesUser(auth: Option<Session>, matchId: Option<string>, team: Option<string>,
                           matches: seq<Match>, preds: seq<Prediction>, users: seq<User>, now: Millis)
    requires UniqueUserIds(users)
    ensures var out := Predict(auth, matchId, team, matches, preds, users, now);
            out.reply.PredictionCreated? && FindUser(users, auth.value.userId).Some? ==>
              && FindUser(out.users, auth.value.userId) == Some(UpdateStreak(FindUser(users, auth.value.userId).value, now))
              && SaveUser(UpdateStreak(FindUser(users, auth.value.userId).value, now)) in out.effects
  {
    var out := Predict(auth, matchId, team, matches, preds, users, now);
    if out.reply.PredictionCreated? && FindUser(users, auth.value.userId).Some? {
      FindAfterUpdate(users, auth.value.userId, StreakAt(now));
      assert out.effects[1] == SaveUser(UpdateStreak(FindUser(users, auth.value.userId).value, now));
    }
  }
}
