/** A player's quiz history (`GET /api/user/quiz-history`): one page of
    their attempts, newest first, each joined with its quiz, plus counts
    over all their attempts. */
module QuizHistory {
  import opened Common
  import opened Seqs
  import opened Models
  import opened Quizzes
  import opened QuizAttempts

  /** The quiz fields the page populates into each attempt. */
  datatype QuizSummary = QuizSummary(questionNumber: int, questionText: string, optionA: string, optionB: string,
                                     correctOption: AnswerOption, correctPoints: int, wrongPenalty: int)

  datatype HistoryItem = HistoryItem(attempt: QuizAttempt, quiz: Option<QuizSummary>)

  datatype Stats = Stats(total: nat, correct: nat, wrong: nat, timeout: nat, unanswered: nat)

  datatype HistoryReply =
    | HistoryUnauthorized
    | HistoryFailed
    | HistoryPage(items: seq<HistoryItem>, stats: Stats, page: int, limit: int, total: nat, totalPages: Option<int>)
  {
    function Status(): int {
      match this
      case HistoryUnauthorized => 401
      case HistoryFailed => 500
      case HistoryPage(_, _, _, _, _, _) => 200
    }
  }

  /** `QuizAttempt.find({ userId })`, in store order. */
  function OfUser(attempts: seq<QuizAttempt>, userId: UserId): (r: seq<QuizAttempt>)
    ensures forall a :: a in r <==> a in attempts && a.userId == userId
    ensures |r| <= |attempts|
  {
    if |attempts| == 0 then []
    else
      var rest := OfUser(attempts[1..], userId);
      assert attempts == [attempts[0]] + attempts[1..];
      if attempts[0].userId == userId then [attempts[0]] + rest else rest
  }

  /** Number of elements of `s` satisfying `p`. */
  function CountWhere(s: seq<QuizAttempt>, p: QuizAttempt -> bool): (n: nat)
    ensures n <= |s|
  {
    if |s| == 0 then 0 else (if p(s[0]) then 1 else 0) + CountWhere(s[1..], p)
  }

  function IsCorrectTrue(a: QuizAttempt): bool { a.isCorrect == Some(true) }
  function IsCorrectFalse(a: QuizAttempt): bool { a.isCorrect == Some(false) }
  function TimedOut(a: QuizAttempt): bool { a.isTimeout }
  function Unanswered(a: QuizAttempt): bool { a.submittedAt.None? && !a.isTimeout }

  function StatsOf(as_: seq<QuizAttempt>): (s: Stats)
    ensures s.total == |as_|
  {
    Stats(|as_|, CountWhere(as_, IsCorrectTrue), CountWhere(as_, IsCorrectFalse),
          CountWhere(as_, TimedOut), CountWhere(as_, Unanswered))
  }

  /** For attempts written only by the start and submit routes the four
      buckets partition them: each is exactly one of correct, wrong, timed
      out or unanswered. */
  lemma {:induction false} StatsAddUp(as_: seq<QuizAttempt>)
    requires AllWellFormed(as_)
    ensures var s := StatsOf(as_);
            s.correct + s.wrong + s.timeout + s.unanswered == s.total
  {
    if |as_| > 0 {
      assert WellFormed(as_[0]);
      assert AllWellFormed(as_[1..]) by {
        forall i | 0 <= i < |as_[1..]| ensures WellFormed(as_[1..][i]) {
          assert as_[1..][i] == as_[i + 1];
        }
      }
      StatsAddUp(as_[1..]);
      var a := as_[0];
      var t := as_[1..];
      assert CountWhere(as_, IsCorrectTrue) == (if IsCorrectTrue(a) then 1 else 0) + CountWhere(t, IsCorrectTrue);
      assert CountWhere(as_, IsCorrectFalse) == (if IsCorrectFalse(a) then 1 else 0) + CountWhere(t, IsCorrectFalse);
      assert CountWhere(as_, TimedOut) == (if TimedOut(a) then 1 else 0) + CountWhere(t, TimedOut);
      assert CountWhere(as_, Unanswered) == (if Unanswered(a) then 1 else 0) + CountWhere(t, Unanswered);
      if a.isCorrect.Some? {
        assert a.isCorrect.value || !a.isCorrect.value;
      }
      assert (if IsCorrectTrue(a) then 1 else 0) + (if IsCorrectFalse(a) then 1 else 0)
             + (if TimedOut(a) then 1 else 0) + (if Unanswered(a) then 1 else 0) == 1;
      assert |as_| == |t| + 1;
    }
  }

  /** Newest `startedAt` first. */
  predicate NewerFirst(a: QuizAttempt, b: QuizAttempt) {
    a.startedAt >= b.startedAt
  }

  lemma NewerFirstIsTotal()
    ensures TotalPreorder(NewerFirst)
  {
  }

  function SummaryOf(q: Quiz): QuizSummary {
    QuizSummary(q.questionNumber, q.questionText, q.optionA, q.optionB, q.correctOption, q.correctPoints, q.wrongPenalty)
  }

  /** `.populate('quizId')`: a deleted quiz populates as null. */
  function ItemOf(a: QuizAttempt, quizzes: seq<Quiz>): (h: HistoryItem)
    ensures h.attempt == a
    ensures h.quiz.Some? <==> FindQuiz(quizzes, a.quizId).Some?
    ensures h.quiz.Some? ==> h.quiz.value == SummaryOf(FindQuiz(quizzes, a.quizId).value)
  {
    var q := FindQuiz(quizzes, a.quizId);
    HistoryItem(a, if q.Some? then Some(SummaryOf(q.value)) else None)
  }

  function ItemIn(quizzes: seq<Quiz>): QuizAttempt -> HistoryItem {
    (a: QuizAttempt) => ItemOf(a, quizzes)
  }

  /** `Math.ceil(total / limit)` for a non-zero limit. */
  function CeilDiv(total: nat, limit: int): (r: int)
    requires limit != 0
    ensures limit > 0 ==> r >= 0 && (r - 1) * limit < total <= r * limit
    ensures limit < 0 ==> r <= 0 && r * limit <= total < (r - 1) * limit
  {
    if limit > 0 then (total + limit - 1) / limit else -(total / -limit)
  }

  /** `.skip(skip).limit(limit)` on the sorted attempts; a limit of 0 means
      no limit and a negative one is taken by its magnitude. */
  function Window(s: seq<QuizAttempt>, skip: nat, limit: int): (r: seq<QuizAttempt>)
    ensures skip >= |s| ==> r == []
    ensures skip < |s| ==> var rest := s[skip..];
              r == if limit == 0 then rest else Take(rest, if limit > 0 then limit else -limit)
  {
    if skip >= |s| then [] else
      var rest := s[skip..];
      if limit == 0 then rest else Take(rest, if limit > 0 then limit else -limit)
  }

  /** The items of one page: the sorted attempts from `skip` on, as many
      as the limit lets through, each joined with its quiz. */
  function PageItems(mine: seq<QuizAttempt>, skip: nat, limit: int, quizzes: seq<Quiz>): (items: seq<HistoryItem>)
    ensures forall i | 0 <= i < |items| :: items[i].attempt in mine
    ensures forall i, j | 0 <= i < j < |items| :: items[i].attempt.startedAt >= items[j].attempt.startedAt
    ensures limit > 0 ==> |items| == Min(limit, Max(0, |mine| - skip))
    ensures limit == 0 ==> |items| == Max(0, |mine| - skip)
  {
    NewerFirstIsTotal();
    var sorted := Sort(mine, NewerFirst);
    var shown := Window(sorted, skip, limit);
    assert forall x | x in sorted :: x in multiset(mine);
    assert forall i | 0 <= i < |shown| :: shown[i] == sorted[skip + i];
    forall i | 0 <= i < |shown|
      ensures shown[i] in mine
    {
      assert sorted[skip + i] in multiset(sorted);
    }
    MapSeq(ItemIn(quizzes), shown)
  }

  /** `GET /api/user/quiz-history`.  `page` and `limit` are the parsed query
      parameters, `None` when absent; a negative skip makes the query fail. */
  function History(auth: Option<Session>, page: Option<int>, limit: Option<int>,
                   attempts: seq<QuizAttempt>, quizzes: seq<Quiz>): (r: HistoryReply)
    ensures r == HistoryUnauthorized <==> !IsPlayer(auth)
    ensures r == HistoryFailed <==> IsPlayer(auth) && (page.GetOr(1) - 1) * limit.GetOr(10) < 0
    ensures r.HistoryPage? ==>
              var mine := OfUser(attempts, auth.value.userId);
              && r.page == page.GetOr(1) && r.limit == limit.GetOr(10)
              && r.total == |mine| && r.stats == StatsOf(mine)
              && (r.limit != 0 ==> r.totalPages == Some(CeilDiv(r.total, r.limit)))
              && (r.limit == 0 ==> r.totalPages == None)
              && r.items == PageItems(mine, (r.page - 1) * r.limit, r.limit, quizzes)
  {
    if !IsPlayer(auth) then HistoryUnauthorized
    else
      var p := page.GetOr(1);
      var l := limit.GetOr(10);
      var skip := (p - 1) * l;
      if skip < 0 then HistoryFailed
      else
        var mine := OfUser(attempts, auth.value.userId);
        HistoryPage(PageItems(mine, skip, l, quizzes), StatsOf(mine), p, l, |mine|,
                    if l == 0 then None else Some(CeilDiv(|mine|, l)))
  }

  lemma MulLe(a: int, b: int, c: nat)
    requires a <= b
    ensures a * c <= b * c
  {
  }

  /** Page `page` of `limit` starts before the end of `total` items exactly
      when `page` is at most the page count. */
  lemma CeilPages(total: nat, page: int, limit: int)
    requires page >= 1 && limit > 0
    ensures (page - 1) * limit < total <==> page <= CeilDiv(total, limit)
  {
    var n := CeilDiv(total, limit);
    if page <= n {
      MulLe(page - 1, n - 1, limit);
    } else {
      MulLe(n, page - 1, limit);
    }
  }

  /** With a positive limit, page `p` (counting from 1) is non-empty exactly
      when `p` is at most `totalPages`. */
  lemma PagesCover(auth: Option<Session>, page: int, limit: int, attempts: seq<QuizAttempt>, quizzes: seq<Quiz>)
    requires IsPlayer(auth) && page >= 1 && limit > 0
    ensures var r := History(auth, Some(page), Some(limit), attempts, quizzes);
            r.HistoryPage? && (|r.items| > 0 <==> page <= r.totalPages.value)
  {
    MulLe(0, page - 1, limit);
    var r := History(auth, Some(page), Some(limit), attempts, quizzes);
    CeilPages(r.total, page, limit);
  }

  /** As written, the history joins each attempt with its quiz's answer: a
      player who has just started a live quiz sees, with `limit=0`, the
      correct option of the very question whose listing entry hides it. */
  lemma HistoryShowsAnswerEarly(auth: Option<Session>, quizId: string, quizzes: seq<Quiz>,
                                attempts: seq<QuizAttempt>, now: Millis)
    requires QuizIdsUnique(quizzes)
    requires StartAttempt(auth, Some(quizId), quizzes, attempts, now).0.AttemptStarted?
    ensures var started := StartAttempt(auth, Some(quizId), quizzes, attempts, now);
            var q := FindQuiz(quizzes, quizId).value;
            var h := History(auth, None, Some(0), started.1, quizzes);
            && ComputeStatus(q, now) == Live
            && Shown(false, ViewOf(q, now)).correctOption == None
            && h.HistoryPage?
            && exists i | 0 <= i < |h.items| ::
                 && h.items[i].attempt == started.0.attempt
                 && h.items[i].attempt.submittedAt.None?
                 && h.items[i].quiz == Some(SummaryOf(q))
  {
    var started := StartAttempt(auth, Some(quizId), quizzes, attempts, now);
    var a := started.0.attempt;
    var q := FindQuiz(quizzes, quizId).value;
    AttemptableIsLive(q, now);
    var h := History(auth, None, Some(0), started.1, quizzes);
    var mine := OfUser(started.1, auth.value.userId);
    assert started.1[|attempts|] == a;
    assert a in mine;
    NewerFirstIsTotal();
    var sorted := Sort(mine, NewerFirst);
    assert a in multiset(sorted);
    var k :| 0 <= k < |sorted| && sorted[k] == a;
    assert Window(sorted, 0, 0) == sorted;
    assert h.items == PageItems(mine, 0, 0, quizzes);
    assert h.items[k].attempt == a;
  }
}
