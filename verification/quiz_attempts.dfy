/** One player's attempt at one quiz: starting it (`POST /api/quiz/attempt`),
    polling it (`GET /api/quiz/attempt`) and answering it
    (`POST /api/quiz/attempt/submit`).  An attempt moves from started to
    either answered or timed out, and never back. */
module QuizAttempts {
  import opened Common
  import opened Models
  import opened UserStore
  import opened Quizzes

  /** The answer timer, and the extra allowance the submit route grants for
      network latency. */
  const QuizTimerMs: int := 10000
  const TimerGraceMs: int := 1000

  /** `QuizAttempt.findOne({ userId, quizId })`. */
  function FindAttempt(attempts: seq<QuizAttempt>, userId: UserId, quizId: QuizId): (r: Option<QuizAttempt>)
    ensures r.Some? <==> exists i | 0 <= i < |attempts| :: attempts[i].userId == userId && attempts[i].quizId == quizId
    ensures r.Some? ==> r.value in attempts && r.value.userId == userId && r.value.quizId == quizId
  {
    if |attempts| == 0 then None
    else if attempts[0].userId == userId && attempts[0].quizId == quizId then Some(attempts[0])
    else
      var r := FindAttempt(attempts[1..], userId, quizId);
      assert forall i | 1 <= i < |attempts| :: attempts[i] == attempts[1..][i - 1];
      r
  }

  /** Saving a changed attempt document: the attempt of that user for that
      quiz becomes `change` of itself. */
  function UpdateAttempt(attempts: seq<QuizAttempt>, userId: UserId, quizId: QuizId,
                         change: QuizAttempt -> QuizAttempt): (r: seq<QuizAttempt>)
    ensures |r| == |attempts|
    ensures forall i | 0 <= i < |attempts| :: r[i] == if attempts[i].userId == userId && attempts[i].quizId == quizId
                                                       then change(attempts[i]) else attempts[i]
  {
    seq(|attempts|, i requires 0 <= i < |attempts| =>
      if attempts[i].userId == userId && attempts[i].quizId == quizId then change(attempts[i]) else attempts[i])
  }

  /** With the unique index in place, reading back an updated attempt sees
      the update, and an update that keeps the key keeps the index valid. */
  lemma FindAfterUpdateAttempt(attempts: seq<QuizAttempt>, userId: UserId, quizId: QuizId,
                               change: QuizAttempt -> QuizAttempt)
    requires AttemptsUnique(attempts)
    requires forall a: QuizAttempt :: change(a).userId == a.userId && change(a).quizId == a.quizId
    ensures AttemptsUnique(UpdateAttempt(attempts, userId, quizId, change))
    ensures FindAttempt(UpdateAttempt(attempts, userId, quizId, change), userId, quizId)
            == if FindAttempt(attempts, userId, quizId).Some? then Some(change(FindAttempt(attempts, userId, quizId).value)) else None
  {
    var r := UpdateAttempt(attempts, userId, quizId, change);
    assert forall i | 0 <= i < |attempts| :: r[i].userId == attempts[i].userId && r[i].quizId == attempts[i].quizId;
    if FindAttempt(attempts, userId, quizId).Some? {
      var i :| 0 <= i < |attempts| && attempts[i] == FindAttempt(attempts, userId, quizId).value;
      assert r[i].userId == userId && r[i].quizId == quizId;
      var f := FindAttempt(r, userId, quizId);
      assert f.value.userId == userId && f.value.quizId == quizId;
      var k :| 0 <= k < |r| && r[k] == f.value;
      assert r[k].userId == attempts[k].userId && r[k].quizId == attempts[k].quizId;
      assert attempts[k].userId == userId && attempts[k].quizId == quizId;
      assert k == i;
    }
  }

  // ---------------------------------------------------------------- timer

  /** `Math.max(0, QUIZ_TIMER_MS - elapsed)`. */
  function RemainingMs(a: QuizAttempt, now: Millis): (r: int)
    ensures r >= 0
    ensures now >= a.startedAt ==> r <= QuizTimerMs
    ensures r == 0 <==> now - a.startedAt >= QuizTimerMs
    ensures r > 0 ==> r + (now - a.startedAt) == QuizTimerMs
  {
    Max(0, QuizTimerMs - (now - a.startedAt))
  }

  /** The timeout flag the start and status routes report. */
  predicate ReportsTimeout(a: QuizAttempt, now: Millis) {
    RemainingMs(a, now) == 0 && a.submittedAt.None?
  }

  // -------------------------------------------------------------- liveness

  /** `isActuallyLive`: not a draft, and the clock inside the window with
      both ends included. */
  predicate Attemptable(q: Quiz, now: Millis) {
    q.status != Draft && q.startTime <= now <= q.endTime
  }

  /** The start route's liveness test is the listing's "live". */
  lemma AttemptableIsLive(q: Quiz, now: Millis)
    ensures Attemptable(q, now) <==> ComputeStatus(q, now) == Live
  {
  }

  datatype Refusal = NotAvailableYet | NotStartedYet | QuizHasEnded | NotCurrentlyAvailable

  /** The specific message for a quiz that cannot be attempted; the generic
      last message is never produced. */
  function RefusalOf(q: Quiz, now: Millis): (r: Refusal)
    requires !Attemptable(q, now)
    ensures r == NotAvailableYet <==> q.status == Draft
    ensures r == NotStartedYet <==> q.status != Draft && now < q.startTime
    ensures r == QuizHasEnded <==> q.status != Draft && now >= q.startTime && now > q.endTime
    ensures r != NotCurrentlyAvailable
  {
    if q.status == Draft then NotAvailableYet
    else if now < q.startTime then NotStartedYet
    else if now > q.endTime then QuizHasEnded
    else assert false; NotCurrentlyAvailable
  }

  // ----------------------------------------------------------- start route

  /** The question as the start route hands it out. */
  datatype Question = Question(id: QuizId, questionNumber: int, questionText: string, optionA: string, optionB: string)

  function QuestionOf(q: Quiz): Question {
    Question(q.id, q.questionNumber, q.questionText, q.optionA, q.optionB)
  }

  datatype StartReply =
    | StartUnauthorized
    | StartMissingId
    | StartQuizNotFound
    | QuizUnavailable(reason: Refusal)
    | AttemptResumed(attempt: QuizAttempt, question: Question, remainingMs: int, alreadySubmitted: bool, isTimeout: bool)
    | AttemptStarted(attempt: QuizAttempt, question: Question, remainingMs: int)
  {
    function Status(): int {
      match this
      case StartUnauthorized => 401
      case StartQuizNotFound => 404
      case AttemptResumed(_, _, _, _, _) => 200
      case AttemptStarted(_, _, _) => 200
      case _ => 400
    }
  }

  /** `POST /api/quiz/attempt`.  Liveness is checked before the existing
      attempt is looked up. */
  function StartAttempt(auth: Option<Session>, quizId: Option<string>, quizzes: seq<Quiz>,
                        attempts: seq<QuizAttempt>, now: Millis): (out: (StartReply, seq<QuizAttempt>))
    ensures !out.0.AttemptStarted? ==> out.1 == attempts
    ensures out.0 == StartUnauthorized <==> !IsPlayer(auth)
    ensures out.0 == StartMissingId <==> IsPlayer(auth) && !Present(quizId)
    ensures out.0 == StartQuizNotFound <==> IsPlayer(auth) && Present(quizId) && FindQuiz(quizzes, quizId.value).None?
    ensures IsPlayer(auth) && Present(quizId) && FindQuiz(quizzes, quizId.value).Some? ==>
              var q := FindQuiz(quizzes, quizId.value).value;
              var found := FindAttempt(attempts, auth.value.userId, quizId.value);
              && (!Attemptable(q, now) ==> out.0 == QuizUnavailable(RefusalOf(q, now)))
              && (Attemptable(q, now) && found.Some? ==>
                    out.0 == AttemptResumed(found.value, QuestionOf(q), RemainingMs(found.value, now),
                                            found.value.submittedAt.Some?, ReportsTimeout(found.value, now)))
              && (Attemptable(q, now) && found.None? ==>
                    && out.0 == AttemptStarted(NewAttempt(auth.value.userId, quizId.value, now), QuestionOf(q), QuizTimerMs)
                    && out.1 == attempts + [out.0.attempt])
  {
    if !IsPlayer(auth) then (StartUnauthorized, attempts)
    else if !Present(quizId) then (StartMissingId, attempts)
    else
      var fq := FindQuiz(quizzes, quizId.value);
      if fq.None? then (StartQuizNotFound, attempts)
      else
        var q := fq.value;
        if !Attemptable(q, now) then (QuizUnavailable(RefusalOf(q, now)), attempts)
        else
          var uid := auth.value.userId;
          var found := FindAttempt(attempts, uid, quizId.value);
          if found.Some? then
            var a := found.value;
            (AttemptResumed(a, QuestionOf(q), RemainingMs(a, now), a.submittedAt.Some?, ReportsTimeout(a, now)), attempts)
          else
            var a := NewAttempt(uid, quizId.value, now);
            (AttemptStarted(a, QuestionOf(q), QuizTimerMs), attempts + [a])
  }

  /** Starting keeps one attempt per (user, quiz); a second start resumes
      the same attempt instead of creating one; and once the quiz has
      ended an existing attempt cannot be resumed. */
  lemma StartOnce(auth: Option<Session>, quizId: Option<string>, quizzes: seq<Quiz>,
                  attempts: seq<QuizAttempt>, now: Millis, later: Millis)
    requires AttemptsUnique(attempts)
    requires later >= now
    ensures var out := StartAttempt(auth, quizId, quizzes, attempts, now);
            && AttemptsUnique(out.1)
            && (out.0.AttemptStarted? ==>
                  var again := StartAttempt(auth, quizId, quizzes, out.1, later);
                  && again.1 == out.1
                  && (again.0.AttemptResumed? || again.0 == QuizUnavailable(QuizHasEnded))
                  && (again.0.AttemptResumed? ==>
                        again.0.attempt == out.0.attempt && again.0.remainingMs == Max(0, QuizTimerMs - (later - now))))
    ensures IsPlayer(auth) && Present(quizId) && FindQuiz(quizzes, quizId.value).Some? ==>
              var q := FindQuiz(quizzes, quizId.value).value;
              q.status != Draft && q.startTime <= q.endTime < now ==>
                StartAttempt(auth, quizId, quizzes, attempts, now).0 == QuizUnavailable(QuizHasEnded)
  {
    var out := StartAttempt(auth, quizId, quizzes, attempts, now);
    if out.0.AttemptStarted? {
      var uid := auth.value.userId;
      var a := out.0.attempt;
      var r := out.1;
      assert FindAttempt(attempts, uid, quizId.value).None?;
      forall i, j | 0 <= i < j < |r|
        ensures r[i].userId != r[j].userId || r[i].quizId != r[j].quizId
      {
        if j == |attempts| {
          assert r[i] == attempts[i];
        }
      }
      var q := FindQuiz(quizzes, quizId.value).value;
      if Attemptable(q, later) {
        var f := FindAttempt(r, uid, quizId.value);
        assert r[|attempts|] == a;
        var k :| 0 <= k < |r| && r[k] == f.value;
        assert k == |attempts|;
      }
    }
  }

  // ---------------------------------------------------------- status route

  datatype StatusReply =
    | StatusUnauthorized
    | StatusMissingId
    | NoAttempt
    | AttemptState(attempt: QuizAttempt, remainingMs: int, alreadySubmitted: bool, isTimeout: bool)
  {
    function Status(): int {
      match this
      case StatusUnauthorized => 401
      case StatusMissingId => 400
      case _ => 200
    }
  }

  /** `GET /api/quiz/attempt`: reads the attempt and reports its timer;
      it writes nothing, so its result is a reply only. */
  function AttemptStatus(auth: Option<Session>, quizId: Option<string>, attempts: seq<QuizAttempt>, now: Millis): (r: StatusReply)
    ensures r == StatusUnauthorized <==> !IsPlayer(auth)
    ensures r == StatusMissingId <==> IsPlayer(auth) && !Present(quizId)
    ensures r == NoAttempt <==> IsPlayer(auth) && Present(quizId) && FindAttempt(attempts, auth.value.userId, quizId.value).None?
    ensures r.AttemptState? ==>
              && Some(r.attempt) == FindAttempt(attempts, auth.value.userId, quizId.value)
              && 0 <= r.remainingMs
              && (r.attempt.startedAt <= now ==> r.remainingMs <= QuizTimerMs)
              && (r.isTimeout <==> r.remainingMs == 0 && r.attempt.submittedAt.None?)
              && (r.alreadySubmitted <==> r.attempt.submittedAt.Some?)
  {
    if !IsPlayer(auth) then StatusUnauthorized
    else if !Present(quizId) then StatusMissingId
    else
      var found := FindAttempt(attempts, auth.value.userId, quizId.value);
      if found.None? then NoAttempt
      else AttemptState(found.value, RemainingMs(found.value, now), found.value.submittedAt.Some?, ReportsTimeout(found.value, now))
  }

  /** While the quiz is live, polling reports the same timer as resuming. */
  lemma StatusAgreesWithResume(auth: Option<Session>, quizId: Option<string>, quizzes: seq<Quiz>,
                               attempts: seq<QuizAttempt>, now: Millis)
    requires StartAttempt(auth, quizId, quizzes, attempts, now).0.AttemptResumed?
    ensures var s := StartAttempt(auth, quizId, quizzes, attempts, now).0;
            AttemptStatus(auth, quizId, attempts, now) == AttemptState(s.attempt, s.remainingMs, s.alreadySubmitted, s.isTimeout)
  {
  }

  // ---------------------------------------------------------- submit route

  datatype SubmitReply =
    | SubmitUnauthorized
    | SubmitMissingField
    | SubmitBadOption
    | SubmitNoAttempt
    | SubmitAlreadyDone
    | SubmitTimedOut
    | SubmitQuizNotFound
    | SubmitQuizEnded
    | Answered(isCorrect: bool, correctOption: AnswerOption, pointsAwarded: int)
  {
    function Status(): int {
      match this
      case SubmitUnauthorized => 401
      case SubmitQuizNotFound => 404
      case SubmitTimedOut => 200
      case Answered(_, _, _) => 200
      case _ => 400
    }
  }

  /** The handler's reply and the two collections it may write. */
  datatype SubmitOutcome = SubmitOutcome(reply: SubmitReply, attempts: seq<QuizAttempt>, users: seq<User>)

  /** The attempt saved on a late submission. */
  function MarkTimeout(now: Millis): QuizAttempt -> QuizAttempt {
    (a: QuizAttempt) => a.(isTimeout := true, submittedAt := Some(now))
  }

  /** The attempt saved on an answer in time. */
  function MarkAnswered(choice: AnswerOption, correct: bool, points: int, now: Millis): QuizAttempt -> QuizAttempt {
    (a: QuizAttempt) => a.(selectedOption := Some(choice), isCorrect := Some(correct), pointsAwarded := points,
                           submittedAt := Some(now), isTimeout := false)
  }

  /** `$inc: { points }`. */
  function AddPoints(points: int): User -> User {
    (u: User) => u.(points := u.points + points)
  }

  /** `isCorrect ? correctPoints : -wrongPenalty`. */
  function Score(q: Quiz, choice: AnswerOption): (p: int)
    ensures choice == q.correctOption ==> p == q.correctPoints
    ensures choice != q.correctOption ==> p == -q.wrongPenalty
  {
    if choice == q.correctOption then q.correctPoints else -q.wrongPenalty
  }

  /** Later than the timer plus the grace period. */
  predicate TooLate(a: QuizAttempt, now: Millis) {
    now - a.startedAt > QuizTimerMs + TimerGraceMs
  }

  /** `POST /api/quiz/attempt/submit`. */
  function Submit(auth: Option<Session>, quizId: Option<string>, selected: Option<string>, quizzes: seq<Quiz>,
                  attempts: seq<QuizAttempt>, users: seq<User>, now: Millis): (out: SubmitOutcome)
    ensures !(out.reply.SubmitTimedOut? || out.reply.Answered?) ==> out.attempts == attempts && out.users == users
    ensures out.reply == SubmitUnauthorized <==> !IsPlayer(auth)
    ensures out.reply == SubmitMissingField <==> IsPlayer(auth) && !(Present(quizId) && Present(selected))
    ensures out.reply == SubmitBadOption <==>
              IsPlayer(auth) && Present(quizId) && Present(selected) && ParseOption(selected.value).None?
    ensures IsPlayer(auth) && Present(quizId) && Present(selected) && ParseOption(selected.value).Some? ==>
              var uid := auth.value.userId;
              var found := FindAttempt(attempts, uid, quizId.value);
              && (out.reply == SubmitNoAttempt <==> found.None?)
              && (out.reply == SubmitAlreadyDone <==> found.Some? && found.value.submittedAt.Some?)
              && (out.reply == SubmitTimedOut <==> found.Some? && found.value.submittedAt.None? && TooLate(found.value, now))
              && (out.reply == SubmitTimedOut ==>
                    out.attempts == UpdateAttempt(attempts, uid, quizId.value, MarkTimeout(now)) && out.users == users)
              && var inTime := found.Some? && found.value.submittedAt.None? && !TooLate(found.value, now);
              var fq := FindQuiz(quizzes, quizId.value);
              && (out.reply == SubmitQuizNotFound <==> inTime && fq.None?)
              && (out.reply == SubmitQuizEnded <==> inTime && fq.Some? && now > fq.value.endTime)
              && (out.reply.Answered? <==> inTime && fq.Some? && now <= fq.value.endTime)
    ensures out.reply.Answered? ==>
              && IsPlayer(auth) && Present(quizId) && Present(selected)
              && FindQuiz(quizzes, quizId.value).Some? && ParseOption(selected.value).Some?
              && var uid := auth.value.userId;
              var q := FindQuiz(quizzes, quizId.value).value;
              var choice := ParseOption(selected.value).value;
              && now <= q.endTime
              && out.reply == Answered(choice == q.correctOption, q.correctOption, Score(q, choice))
              && out.attempts == UpdateAttempt(attempts, uid, quizId.value,
                                               MarkAnswered(choice, choice == q.correctOption, Score(q, choice), now))
              && out.users == UpdateUser(users, uid, AddPoints(Score(q, choice)))
  {
    if !IsPlayer(auth) then SubmitOutcome(SubmitUnauthorized, attempts, users)
    else if !Present(quizId) || !Present(selected) then SubmitOutcome(SubmitMissingField, attempts, users)
    else if ParseOption(selected.value).None? then SubmitOutcome(SubmitBadOption, attempts, users)
    else
      var choice := ParseOption(selected.value).value;
      var uid := auth.value.userId;
      var found := FindAttempt(attempts, uid, quizId.value);
      if found.None? then SubmitOutcome(SubmitNoAttempt, attempts, users)
      else if found.value.submittedAt.Some? then SubmitOutcome(SubmitAlreadyDone, attempts, users)
      else if TooLate(found.value, now) then
        SubmitOutcome(SubmitTimedOut, UpdateAttempt(attempts, uid, quizId.value, MarkTimeout(now)), users)
      else
        var fq := FindQuiz(quizzes, quizId.value);
        if fq.None? then SubmitOutcome(SubmitQuizNotFound, attempts, users)
        else if now > fq.value.endTime then SubmitOutcome(SubmitQuizEnded, attempts, users)
        else
          var q := fq.value;
          var correct := choice == q.correctOption;
          var points := Score(q, choice);
          SubmitOutcome(Answered(correct, q.correctOption, points),
                        UpdateAttempt(attempts, uid, quizId.value, MarkAnswered(choice, correct, points, now)),
                        UpdateUser(users, uid, AddPoints(points)))
  }

  /** Whatever a submission records, it sets `submittedAt`, so the next
      submission for that attempt is refused and changes nothing; a late
      one leaves the player's points alone and an answer moves them by
      exactly the points awarded. */
  lemma SubmitOnce(auth: Option<Session>, quizId: Option<string>, selected: Option<string>, selected': Option<string>,
                   quizzes: seq<Quiz>, attempts: seq<QuizAttempt>, users: seq<User>, now: Millis, later: Millis)
    requires AttemptsUnique(attempts) && UniqueUserIds(users)
    ensures var out := Submit(auth, quizId, selected, quizzes, attempts, users, now);
            out.reply.SubmitTimedOut? || out.reply.Answered? ==>
              && AttemptsUnique(out.attempts)
              && FindAttempt(out.attempts, auth.value.userId, quizId.value).value.submittedAt == Some(now)
              && (Present(selected') && ParseOption(selected'.value).Some? ==>
                    Submit(auth, quizId, selected', quizzes, out.attempts, out.users, later)
                      == SubmitOutcome(SubmitAlreadyDone, out.attempts, out.users))
              && (FindUser(users, auth.value.userId).Some? ==>
                    FindUser(out.users, auth.value.userId).value.points
                      == FindUser(users, auth.value.userId).value.points
                         + (if out.reply.Answered? then out.reply.pointsAwarded else 0))
  {
    var out := Submit(auth, quizId, selected, quizzes, attempts, users, now);
    if out.reply.SubmitTimedOut? {
      FindAfterUpdateAttempt(attempts, auth.value.userId, quizId.value, MarkTimeout(now));
    } else if out.reply.Answered? {
      var q := FindQuiz(quizzes, quizId.value).value;
      var choice := ParseOption(selected.value).value;
      var points := Score(q, choice);
      FindAfterUpdateAttempt(attempts, auth.value.userId, quizId.value,
                             MarkAnswered(choice, choice == q.correctOption, points, now));
      FindAfterUpdate(users, auth.value.userId, AddPoints(points));
    }
  }

  /** The grace period: at exactly timer plus grace an answer is still
      accepted, and throughout the last second before that the start and
      status routes already report the attempt as timed out. */
  lemma GraceWindow(a: QuizAttempt, now: Millis)
    requires QuizTimerMs <= now - a.startedAt <= QuizTimerMs + TimerGraceMs
    ensures RemainingMs(a, now) == 0
    ensures a.submittedAt.None? ==> ReportsTimeout(a, now)
    ensures !TooLate(a, now)
  {
  }

  // ----------------------------------------------------- attempt lifecycle

  /** The shapes an attempt can have when only these routes write it:
      started, timed out, or answered. */
  predicate WellFormed(a: QuizAttempt) {
    || (a.submittedAt.None? && !a.isTimeout && a.isCorrect.None? && a.selectedOption.None?)
    || (a.submittedAt.Some? && a.isTimeout && a.isCorrect.None? && a.selectedOption.None?)
    || (a.submittedAt.Some? && !a.isTimeout && a.isCorrect.Some? && a.selectedOption.Some?)
  }

  predicate AllWellFormed(attempts: seq<QuizAttempt>) {
    forall i | 0 <= i < |attempts| :: WellFormed(attempts[i])
  }

  /** The start and submit routes only ever produce well-formed attempts. */
  lemma RoutesKeepWellFormed(auth: Option<Session>, quizId: Option<string>, selected: Option<string>, quizzes: seq<Quiz>,
                             attempts: seq<QuizAttempt>, users: seq<User>, now: Millis)
    requires AttemptsUnique(attempts) && AllWellFormed(attempts)
    ensures AllWellFormed(StartAttempt(auth, quizId, quizzes, attempts, now).1)
    ensures AllWellFormed(Submit(auth, quizId, selected, quizzes, attempts, users, now).attempts)
  {
    var started := StartAttempt(auth, quizId, quizzes, attempts, now).1;
    if started != attempts {
      assert started == attempts + [started[|attempts|]];
    }
    var out := Submit(auth, quizId, selected, quizzes, attempts, users, now);
    if out.reply.SubmitTimedOut? {
      var uid := auth.value.userId;
      var found := FindAttempt(attempts, uid, quizId.value).value;
      var r := out.attempts;
      forall i | 0 <= i < |r|
        ensures WellFormed(r[i])
      {
        assert WellFormed(attempts[i]);
        if attempts[i].userId == uid && attempts[i].quizId == quizId.value {
          var k :| 0 <= k < |attempts| && attempts[k] == found;
          assert k == i;
        }
      }
    }
  }
}
