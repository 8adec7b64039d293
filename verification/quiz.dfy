/** The quiz collection as `/api/quiz` serves it: the real-time status
    derived from the stored status and the clock, the listing with its
    filter, order and redaction, and the admin's creation of a question. */
module Quizzes {
  import opened Common
  import opened Seqs
  import opened Strings
  import opened Models

  /** `Quiz.findById(id)`. */
  function FindQuiz(quizzes: seq<Quiz>, id: QuizId): (r: Option<Quiz>)
    ensures r.Some? <==> exists i | 0 <= i < |quizzes| :: quizzes[i].id == id
    ensures r.Some? ==> r.value in quizzes && r.value.id == id
  {
    if |quizzes| == 0 then None
    else if quizzes[0].id == id then Some(quizzes[0])
    else
      var r := FindQuiz(quizzes[1..], id);
      assert forall i | 1 <= i < |quizzes| :: quizzes[i] == quizzes[1..][i - 1];
      r
  }

  // ------------------------------------------------------ real-time status

  /** `computeRealTimeStatus`: a draft stays a draft; otherwise the clock
      decides, with both ends of the window inclusive.  The stored status
      is returned only by the last branch, which no clock reading reaches. */
  function ComputeStatus(q: Quiz, now: Millis): (r: QuizStatus)
    ensures r == Draft <==> q.status == Draft
    ensures q.status != Draft ==> (r == Ended <==> now > q.endTime)
    ensures q.status != Draft ==> (r == Live <==> q.startTime <= now <= q.endTime)
    ensures q.status != Draft ==> (r == Scheduled <==> now < q.startTime && now <= q.endTime)
  {
    if q.status == Draft then Draft
    else if now > q.endTime then Ended
    else if now >= q.startTime && now <= q.endTime then Live
    else if now < q.startTime then Scheduled
    else assert false; q.status
  }

  /** Position of a non-draft status on the way from scheduled to ended. */
  function Phase(s: QuizStatus): nat {
    match s
    case Draft => 0
    case Scheduled => 0
    case Live => 1
    case Ended => 2
  }

  /** The clock only moves a quiz forward: scheduled, then live, then ended,
      never back; a quiz whose end precedes its start skips the live phase. */
  lemma StatusAdvances(q: Quiz, t1: Millis, t2: Millis)
    requires t1 <= t2
    ensures Phase(ComputeStatus(q, t1)) <= Phase(ComputeStatus(q, t2))
    ensures q.startTime > q.endTime ==> ComputeStatus(q, t2) != Live
  {
  }

  // --------------------------------------------------------------- listing

  /** A listed quiz: the stored fields plus `computedStatus`; the answer is
      `None` once it has been removed from the item. */
  datatype QuizView = QuizView(
    id: QuizId,
    questionNumber: int,
    questionText: string,
    optionA: string,
    optionB: string,
    correctOption: Option<AnswerOption>,
    startTime: Millis,
    endTime: Millis,
    status: QuizStatus,
    computedStatus: QuizStatus,
    correctPoints: int,
    wrongPenalty: int,
    createdAt: Millis)

  const HiddenQuestion: string := "[Hidden until attempt starts]"
  const HiddenOption: string := "[Hidden]"

  function ViewOf(q: Quiz, now: Millis): (v: QuizView)
    ensures v.id == q.id && v.correctOption == Some(q.correctOption)
    ensures v.questionText == q.questionText && v.optionA == q.optionA && v.optionB == q.optionB
    ensures v.status == q.status && v.startTime == q.startTime && v.endTime == q.endTime
    ensures v.computedStatus == ComputeStatus(q, now)
  {
    QuizView(q.id, q.questionNumber, q.questionText, q.optionA, q.optionB, Some(q.correctOption),
             q.startTime, q.endTime, q.status, ComputeStatus(q, now), q.correctPoints, q.wrongPenalty, q.createdAt)
  }

  function ViewAt(now: Millis): Quiz -> QuizView {
    (q: Quiz) => ViewOf(q, now)
  }

  /** What a caller sees of one item: a non-admin gets a scheduled or live
      quiz with its question and options replaced and its answer removed;
      everything else is passed through. */
  function Shown(admin: bool, v: QuizView): (r: QuizView)
    ensures r.id == v.id && r.status == v.status && r.computedStatus == v.computedStatus
    ensures r.startTime == v.startTime && r.endTime == v.endTime
    ensures r.questionNumber == v.questionNumber && r.correctPoints == v.correctPoints && r.wrongPenalty == v.wrongPenalty
    ensures !admin && (v.computedStatus == Live || v.computedStatus == Scheduled) ==>
              r.correctOption == None && r.questionText == HiddenQuestion
              && r.optionA == HiddenOption && r.optionB == HiddenOption
    ensures admin || (v.computedStatus != Live && v.computedStatus != Scheduled) ==> r == v
  {
    if !admin && (v.computedStatus == Live || v.computedStatus == Scheduled) then
      v.(questionText := HiddenQuestion, optionA := HiddenOption, optionB := HiddenOption, correctOption := None)
    else v
  }

  function ShownBy(admin: bool): QuizView -> QuizView {
    (v: QuizView) => Shown(admin, v)
  }

  /** The sort key: live, scheduled, ended, draft. */
  function Rank(s: QuizStatus): nat {
    match s
    case Live => 0
    case Scheduled => 1
    case Ended => 2
    case Draft => 3
  }

  /** The comparator: rank first, then earlier start first. */
  predicate ViewLe(a: QuizView, b: QuizView) {
    Rank(a.computedStatus) < Rank(b.computedStatus)
    || (Rank(a.computedStatus) == Rank(b.computedStatus) && a.startTime <= b.startTime)
  }

  lemma ViewLeIsTotal()
    ensures TotalPreorder(ViewLe)
  {
  }

  /** The `status` query parameter an admin may pass. */
  function ParseStatus(s: string): (r: Option<QuizStatus>)
    ensures r == Some(Draft) <==> s == "draft"
    ensures r == Some(Scheduled) <==> s == "scheduled"
    ensures r == Some(Live) <==> s == "live"
    ensures r == Some(Ended) <==> s == "ended"
  {
    if s == "draft" then Some(Draft)
    else if s == "scheduled" then Some(Scheduled)
    else if s == "live" then Some(Live)
    else if s == "ended" then Some(Ended)
    else None
  }

  /** Whether a quiz belongs in the caller's listing.  An admin sees every
      quiz, or those whose stored status equals a valid `status` parameter;
      anyone else sees non-drafts, and without `includeEnded=true` only
      those scheduled or live by the clock. */
  predicate Visible(auth: Option<Session>, status: Option<string>, includeEnded: Option<string>, q: Quiz, now: Millis) {
    if IsAdmin(auth) then
      !Present(status) || ParseStatus(status.value).None? || ParseStatus(status.value) == Some(q.status)
    else
      q.status != Draft
      && (includeEnded == Some("true") || ComputeStatus(q, now) == Scheduled || ComputeStatus(q, now) == Live)
  }

  /** The stored query, then the non-admin filter on the computed status. */
  function Selected(auth: Option<Session>, status: Option<string>, includeEnded: Option<string>,
                    quizzes: seq<Quiz>, now: Millis): (r: seq<Quiz>)
    ensures forall q :: q in r <==> q in quizzes && Visible(auth, status, includeEnded, q, now)
    ensures |r| <= |quizzes|
  {
    if |quizzes| == 0 then []
    else
      var rest := Selected(auth, status, includeEnded, quizzes[1..], now);
      assert quizzes == [quizzes[0]] + quizzes[1..];
      if Visible(auth, status, includeEnded, quizzes[0], now) then [quizzes[0]] + rest else rest
  }

  /** Every selected quiz as the caller sees it, in store order. */
  function Cards(auth: Option<Session>, status: Option<string>, includeEnded: Option<string>,
                 quizzes: seq<Quiz>, now: Millis): seq<QuizView> {
    MapSeq(ShownBy(IsAdmin(auth)), MapSeq(ViewAt(now), Selected(auth, status, includeEnded, quizzes, now)))
  }

  /** `GET /api/quiz`: select, attach the computed status, sort, and (for a
      non-admin) redact.  The result is the caller's cards rearranged into
      sort order. */
  function ListQuizzes(auth: Option<Session>, status: Option<string>, includeEnded: Option<string>,
                       quizzes: seq<Quiz>, now: Millis): (r: seq<QuizView>)
    ensures multiset(r) == multiset(Cards(auth, status, includeEnded, quizzes, now))
    ensures forall i, j | 0 <= i < j < |r| :: ViewLe(r[i], r[j])
  {
    var views := MapSeq(ViewAt(now), Selected(auth, status, includeEnded, quizzes, now));
    ViewLeIsTotal();
    var sorted := Sort(views, ViewLe);
    SortMap(ShownBy(IsAdmin(auth)), views, ViewLe, ViewLe);
    MapSeq(ShownBy(IsAdmin(auth)), sorted)
  }

  /** The listing holds exactly the visible quizzes, each as the caller may
      see it. */
  lemma ListingContents(auth: Option<Session>, status: Option<string>, includeEnded: Option<string>,
                        quizzes: seq<Quiz>, now: Millis)
    ensures var r := ListQuizzes(auth, status, includeEnded, quizzes, now);
            && (forall q | q in quizzes && Visible(auth, status, includeEnded, q, now) ::
                  Shown(IsAdmin(auth), ViewOf(q, now)) in r)
            && (forall v | v in r :: exists q | q in quizzes && Visible(auth, status, includeEnded, q, now) ::
                  v == Shown(IsAdmin(auth), ViewOf(q, now)))
  {
    var admin := IsAdmin(auth);
    var r := ListQuizzes(auth, status, includeEnded, quizzes, now);
    var selected := Selected(auth, status, includeEnded, quizzes, now);
    var cards := Cards(auth, status, includeEnded, quizzes, now);
    assert |cards| == |selected|;
    assert forall k | 0 <= k < |cards| :: cards[k] == Shown(admin, ViewOf(selected[k], now));
    forall q | q in quizzes && Visible(auth, status, includeEnded, q, now)
      ensures Shown(admin, ViewOf(q, now)) in r
    {
      var k :| 0 <= k < |selected| && selected[k] == q;
      assert cards[k] in multiset(cards);
    }
    forall v | v in r
      ensures exists q | q in quizzes && Visible(auth, status, includeEnded, q, now) :: v == Shown(admin, ViewOf(q, now))
    {
      assert v in multiset(cards);
      var k :| 0 <= k < |cards| && cards[k] == v;
      assert selected[k] in selected;
    }
  }

  /** A non-admin never sees a draft, sees an ended quiz only on request,
      and never sees the question, the options or the answer of a quiz
      that is scheduled or live; an ended quiz is shown with its answer. */
  lemma PlayerListing(auth: Option<Session>, includeEnded: Option<string>, quizzes: seq<Quiz>, now: Millis)
    requires !IsAdmin(auth)
    ensures forall v | v in ListQuizzes(auth, None, includeEnded, quizzes, now) ::
              && v.status != Draft && v.computedStatus != Draft
              && (includeEnded != Some("true") ==> v.computedStatus == Scheduled || v.computedStatus == Live)
              && (v.computedStatus == Scheduled || v.computedStatus == Live ==>
                    v.correctOption == None && v.questionText == HiddenQuestion
                    && v.optionA == HiddenOption && v.optionB == HiddenOption)
              && (v.computedStatus == Ended ==> v.correctOption.Some?)
  {
    var r := ListQuizzes(auth, None, includeEnded, quizzes, now);
    ListingContents(auth, None, includeEnded, quizzes, now);
    forall v | v in r
      ensures v.status != Draft && v.computedStatus != Draft
      ensures includeEnded != Some("true") ==> v.computedStatus == Scheduled || v.computedStatus == Live
      ensures v.computedStatus == Ended ==> v.correctOption.Some?
    {
      var q :| q in quizzes && Visible(auth, None, includeEnded, q, now) && v == Shown(false, ViewOf(q, now));
    }
  }

  /** Without a valid `status` parameter an admin gets every stored quiz,
      unredacted, drafts included. */
  lemma AdminListing(auth: Option<Session>, status: Option<string>, quizzes: seq<Quiz>, now: Millis)
    requires IsAdmin(auth)
    requires !Present(status) || ParseStatus(status.value).None?
    ensures var r := ListQuizzes(auth, status, None, quizzes, now);
            && |r| == |quizzes|
            && forall q | q in quizzes :: ViewOf(q, now) in r
  {
    var r := ListQuizzes(auth, status, None, quizzes, now);
    SelectedAll(auth, status, quizzes, now);
    ListingContents(auth, status, None, quizzes, now);
    assert |multiset(r)| == |multiset(Cards(auth, status, None, quizzes, now))|;
  }

  lemma {:induction false} SelectedAll(auth: Option<Session>, status: Option<string>, quizzes: seq<Quiz>, now: Millis)
    requires IsAdmin(auth)
    requires !Present(status) || ParseStatus(status.value).None?
    ensures Selected(auth, status, None, quizzes, now) == quizzes
  {
    if |quizzes| > 0 {
      SelectedAll(auth, status, quizzes[1..], now);
      assert quizzes == [quizzes[0]] + quizzes[1..];
    }
  }

  // -------------------------------------------------------------- creation

  /** The fields of the request body; `None` is an absent field. */
  datatype QuizForm = QuizForm(
    questionNumber: Option<int>,
    questionText: Option<string>,
    optionA: Option<string>,
    optionB: Option<string>,
    correctOption: Option<string>,
    startTime: Option<Millis>,
    endTime: Option<Millis>,
    status: Option<string>,
    correctPoints: Option<int>,
    wrongPenalty: Option<int>)

  datatype CreateReply =
    | CreateUnauthorized
    | CreateMissingField
    | CreateBadOption
    | CreateBadTimes
    | CreateDuplicateNumber
    | CreateFailed
    | QuizCreated(quiz: Quiz)
  {
    function Status(): int {
      match this
      case CreateUnauthorized => 401
      case CreateFailed => 500
      case QuizCreated(_) => 201
      case _ => 400
    }
  }

  /** Every required field is truthy (`questionNumber` 0 counts as missing). */
  predicate Complete(f: QuizForm) {
    && f.questionNumber.Some? && f.questionNumber.value != 0
    && Present(f.questionText) && Present(f.optionA) && Present(f.optionB)
    && Present(f.correctOption) && f.startTime.Some? && f.endTime.Some?
  }

  function ParseOption(s: string): (r: Option<AnswerOption>)
    ensures r == Some(A) <==> s == "A"
    ensures r == Some(B) <==> s == "B"
  {
    if s == "A" then Some(A) else if s == "B" then Some(B) else None
  }

  predicate NumberTaken(quizzes: seq<Quiz>, n: int) {
    exists i | 0 <= i < |quizzes| :: quizzes[i].questionNumber == n
  }

  /** The schema's own validation on save: the status string is one of the
      enum values and the three texts are non-empty after trimming. */
  predicate SchemaAccepts(f: QuizForm)
    requires Complete(f)
  {
    && ParseStatus(f.status.GetOr("draft")).Some?
    && Trim(f.questionText.value) != "" && Trim(f.optionA.value) != "" && Trim(f.optionB.value) != ""
  }

  /** The document saved for a form that passed every check. */
  function Built(f: QuizForm, id: QuizId, now: Millis): (q: Quiz)
    requires Complete(f) && SchemaAccepts(f) && ParseOption(f.correctOption.value).Some?
    ensures q.id == id && q.questionNumber == f.questionNumber.value && q.createdAt == now
    ensures q.questionText == Trim(f.questionText.value)
    ensures q.optionA == Trim(f.optionA.value) && q.optionB == Trim(f.optionB.value)
    ensures Some(q.correctOption) == ParseOption(f.correctOption.value)
    ensures q.startTime == f.startTime.value && q.endTime == f.endTime.value
    ensures f.status.None? ==> q.status == Draft
    ensures f.status.Some? ==> Some(q.status) == ParseStatus(f.status.value)
    ensures q.correctPoints == f.correctPoints.GetOr(DefaultCorrectPoints)
    ensures q.wrongPenalty == f.wrongPenalty.GetOr(DefaultWrongPenalty)
  {
    Quiz(id, f.questionNumber.value, Trim(f.questionText.value), Trim(f.optionA.value), Trim(f.optionB.value),
         ParseOption(f.correctOption.value).value, f.startTime.value, f.endTime.value,
         ParseStatus(f.status.GetOr("draft")).value,
         f.correctPoints.GetOr(DefaultCorrectPoints), f.wrongPenalty.GetOr(DefaultWrongPenalty), now)
  }

  /** `POST /api/quiz`.  `id` is the identifier the database assigns. */
  function CreateQuiz(auth: Option<Session>, f: QuizForm, quizzes: seq<Quiz>, id: QuizId, now: Millis): (out: (CreateReply, seq<Quiz>))
    ensures !out.0.QuizCreated? ==> out.1 == quizzes
    ensures out.0 == CreateUnauthorized <==> !IsAdmin(auth)
    ensures out.0 == CreateMissingField <==> IsAdmin(auth) && !Complete(f)
    ensures out.0 == CreateBadOption <==>
              IsAdmin(auth) && Complete(f) && ParseOption(f.correctOption.value).None?
    ensures out.0 == CreateBadTimes <==>
              IsAdmin(auth) && Complete(f) && ParseOption(f.correctOption.value).Some?
              && f.endTime.value <= f.startTime.value
    ensures out.0 == CreateDuplicateNumber <==>
              IsAdmin(auth) && Complete(f) && ParseOption(f.correctOption.value).Some?
              && f.endTime.value > f.startTime.value && NumberTaken(quizzes, f.questionNumber.value)
    ensures out.0 == CreateFailed <==>
              IsAdmin(auth) && Complete(f) && ParseOption(f.correctOption.value).Some?
              && f.endTime.value > f.startTime.value && !NumberTaken(quizzes, f.questionNumber.value)
              && !SchemaAccepts(f)
    ensures out.0.QuizCreated? ==>
              && Complete(f) && SchemaAccepts(f) && ParseOption(f.correctOption.value).Some?
              && out.0.quiz == Built(f, id, now)
              && out.1 == quizzes + [out.0.quiz]
  {
    if !IsAdmin(auth) then (CreateUnauthorized, quizzes)
    else if !Complete(f) then (CreateMissingField, quizzes)
    else if ParseOption(f.correctOption.value).None? then (CreateBadOption, quizzes)
    else if f.endTime.value <= f.startTime.value then (CreateBadTimes, quizzes)
    else if NumberTaken(quizzes, f.questionNumber.value) then (CreateDuplicateNumber, quizzes)
    else if !SchemaAccepts(f) then (CreateFailed, quizzes)
    else
      var q := Built(f, id, now);
      (QuizCreated(q), quizzes + [q])
  }

  /** Creation keeps question numbers unique (and ids, given a fresh id); a
      created quiz has a real window; sending the same form again is
      refused as a duplicate. */
  lemma CreateKeepsUnique(auth: Option<Session>, f: QuizForm, quizzes: seq<Quiz>, id: QuizId, id': QuizId, now: Millis)
    requires QuestionNumbersUnique(quizzes)
    ensures var out := CreateQuiz(auth, f, quizzes, id, now);
            && QuestionNumbersUnique(out.1)
            && (QuizIdsUnique(quizzes) && (forall q | q in quizzes :: q.id != id) ==> QuizIdsUnique(out.1))
            && (out.0.QuizCreated? ==>
                  && out.0.quiz.startTime < out.0.quiz.endTime
                  && CreateQuiz(auth, f, out.1, id', now).0 == CreateDuplicateNumber)
  {
    var out := CreateQuiz(auth, f, quizzes, id, now);
    if out.0.QuizCreated? {
      var r := out.1;
      assert r[|quizzes|] == out.0.quiz;
      forall i, j | 0 <= i < j < |r|
        ensures r[i].questionNumber != r[j].questionNumber
      {
        if j == |quizzes| {
          assert r[i] == quizzes[i];
        }
      }
    }
  }
}
