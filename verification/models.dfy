/** The stored documents (Mongoose schemas) as immutable records, with their
    defaults, enumerations, normalisations and uniqueness keys.  A collection
    is a sequence in natural (insertion) order. */
module Models {
  import opened Common
  import opened Seqs
  import opened Strings

  // --------------------------------------------------------------- User

  /** `signupCoords`; either half may be absent in a stored document. */
  datatype Coords = Coords(lat: Option<real>, lng: Option<real>)

  /** A stored password: the digest the schema's `save` hook writes. */
  type Secret = string

  /** The prefix every bcrypt digest at cost 10 starts with. */
  const DigestTag: string := "$2a$10$"

  /** `bcrypt.hash(p, 10)`, as an injective tagging of its input: two
      digests are equal exactly when their inputs are, and a digest is
      always longer than what it digests.  The random salt is not modelled. */
  function Digest(p: string): (h: string)
    ensures |h| == |p| + |DigestTag|
    ensures JsLength(h) == JsLength(p) + |DigestTag|
  {
    JsLengthAppend(DigestTag, p);
    DigestTag + p
  }

  lemma DigestInjective(p: string, q: string)
    ensures Digest(p) == Digest(q) <==> p == q
  {
    if Digest(p) == Digest(q) {
      assert p == Digest(p)[|DigestTag|..];
      assert q == Digest(q)[|DigestTag|..];
    }
  }

  /** `comparePassword`: `bcrypt.compare(candidate, stored)` holds exactly
      when `stored` is a digest of `candidate`. */
  predicate PasswordMatches(candidate: string, stored: Secret) {
    stored == Digest(candidate)
  }

  /** The `pre('save')` hook: a password modified since the last load is
      hashed before it is written; an untouched one is left alone. */
  function SaveHook(u: User, passwordModified: bool): User {
    if passwordModified then u.(password := Digest(u.password)) else u
  }

  datatype User = User(
    id: UserId,
    email: string,
    password: Secret,
    phoneNumber: string,
    displayName: Option<string>,
    signupIP: Option<string>,
    signupCoords: Option<Coords>,
    points: int,
    correctPredictions: int,
    wrongPredictions: int,
    currentStreak: int,
    longestStreak: int,
    badges: seq<string>,
    lastPredictionDate: Option<Millis>,
    isFlagged: bool,
    flagReason: Option<string>,
    warningsSent: int,
    timesCaught: int,
    createdAt: Millis)

  /** A string Mongoose stores through `lowercase: true, trim: true`. */
  predicate IsLowerTrimmed(s: string) {
    ToLower(s) == s && Trim(s) == s
  }

  /** The normal form in which an email is stored and looked up: lower-cased
      and trimmed. */
  function EmailKey(s: string): string {
    Trim(ToLower(s))
  }

  /** A key is already in stored form, so keying it again changes nothing. */
  lemma EmailKeyNormal(s: string)
    ensures IsLowerTrimmed(EmailKey(s))
    ensures EmailKey(EmailKey(s)) == EmailKey(s)
  {
    TrimOfLower(s);
  }

  /** The schema's validators and setters on a stored user: email unique
      (checked on the collection), lower-cased, trimmed and of the shape
      X@Y.Z; password of at least 6 UTF-16 code units; display name trimmed
      and at most 30 code units (Mongoose's `minlength` and `maxlength`
      compare `.length`). */
  predicate UserDocValid(u: User) {
    && IsLowerTrimmed(u.email)
    && MatchesEmailPattern(u.email)
    && JsLength(u.password) >= 6
    && Trim(u.phoneNumber) == u.phoneNumber
    && (u.displayName.Some? ==> Trim(u.displayName.value) == u.displayName.value
                                && JsLength(u.displayName.value) <= 30)
  }

  /** The schema defaults of a freshly created user. */
  predicate HasUserDefaults(u: User) {
    && u.points == 0 && u.correctPredictions == 0 && u.wrongPredictions == 0
    && u.currentStreak == 0 && u.longestStreak == 0
    && u.badges == [] && u.lastPredictionDate == None
    && !u.isFlagged && u.flagReason == None
    && u.warningsSent == 0 && u.timesCaught == 0
  }

  /** A user document as the schema builds it from the given fields; every
      field the caller leaves out takes its default. */
  function NewUser(id: UserId, email: string, password: Secret, phone: string,
                   displayName: Option<string>, signupIP: Option<string>,
                   signupCoords: Option<Coords>, now: Millis): (u: User)
    ensures HasUserDefaults(u)
    ensures u.id == id && u.createdAt == now
    ensures u.email == Trim(ToLower(email)) && u.phoneNumber == Trim(phone)
  {
    User(id, Trim(ToLower(email)), password, Trim(phone),
         if displayName.Some? then Some(Trim(displayName.value)) else None,
         signupIP, signupCoords,
         0, 0, 0, 0, 0, [], None, false, None, 0, 0, now)
  }

  predicate UniqueUserIds(users: seq<User>) {
    forall i, j | 0 <= i < j < |users| :: users[i].id != users[j].id
  }

  predicate UniqueEmails(users: seq<User>) {
    forall i, j | 0 <= i < j < |users| :: users[i].email != users[j].email
  }

  predicate EmailTaken(users: seq<User>, email: string) {
    exists i | 0 <= i < |users| :: users[i].email == email
  }

  // -------------------------------------------------------------- Match

  datatype MatchStatus = Upcoming | LiveMatch | Completed

  datatype Match = Match(
    id: MatchId,
    title: string,
    teamA: string,
    teamB: string,
    teamAFlag: string,
    teamBFlag: string,
    matchDate: Millis,
    predictionStartDate: Option<Millis>,
    predictionDeadline: Millis,
    status: MatchStatus,
    winner: Option<string>,
    createdAt: Millis)

  /** A match as the schema builds it: names trimmed, flags empty, status
      upcoming, no winner.  The schema requires a prediction start date, but
      documents written before that field existed lack it, so it stays
      optional in `Match`. */
  function NewMatch(id: MatchId, title: string, teamA: string, teamB: string,
                    matchDate: Millis, start: Millis, deadline: Millis, now: Millis): (m: Match)
    ensures m.status == Upcoming && m.winner == None
    ensures m.teamAFlag == "" && m.teamBFlag == ""
    ensures m.predictionStartDate == Some(start) && m.predictionDeadline == deadline
    ensures m.teamA == Trim(teamA) && m.teamB == Trim(teamB)
    ensures Trim(m.teamA) == m.teamA && Trim(m.teamB) == m.teamB
  {
    var a := Trim(teamA);
    var b := Trim(teamB);
    TrimOfTrimmed(a);
    TrimOfTrimmed(b);
    Match(id, Trim(title), a, b, "", "", matchDate, Some(start), deadline, Upcoming, None, now)
  }

  // --------------------------------------------------------- Prediction

  datatype Prediction = Prediction(
    userId: UserId,
    matchId: MatchId,
    predictedTeam: string,
    isCorrect: Option<bool>,
    pointsEarned: Option<int>,
    createdAt: Millis)

  function NewPrediction(userId: UserId, matchId: MatchId, team: string, now: Millis): (p: Prediction)
    ensures p.userId == userId && p.matchId == matchId && p.createdAt == now
    ensures p.predictedTeam == Trim(team)
    ensures p.isCorrect == None && p.pointsEarned == None
  {
    Prediction(userId, matchId, Trim(team), None, None, now)
  }

  /** The unique compound index `{ userId: 1, matchId: 1 }`. */
  predicate PredictionsUnique(ps: seq<Prediction>) {
    forall i, j | 0 <= i < j < |ps| :: ps[i].userId != ps[j].userId || ps[i].matchId != ps[j].matchId
  }

  predicate HasPrediction(ps: seq<Prediction>, userId: UserId, matchId: MatchId) {
    exists i | 0 <= i < |ps| :: ps[i].userId == userId && ps[i].matchId == matchId
  }

  // --------------------------------------------------------------- Quiz

  datatype AnswerOption = A | B

  datatype QuizStatus = Draft | Scheduled | Live | Ended

  datatype Quiz = Quiz(
    id: QuizId,
    questionNumber: int,
    questionText: string,
    optionA: string,
    optionB: string,
    correctOption: AnswerOption,
    startTime: Millis,
    endTime: Millis,
    status: QuizStatus,
    correctPoints: int,
    wrongPenalty: int,
    createdAt: Millis)

  const DefaultCorrectPoints: int := 5
  const DefaultWrongPenalty: int := 1

  /** The unique index on `questionNumber`. */
  predicate QuestionNumbersUnique(qs: seq<Quiz>) {
    forall i, j | 0 <= i < j < |qs| :: qs[i].questionNumber != qs[j].questionNumber
  }

  predicate QuizIdsUnique(qs: seq<Quiz>) {
    forall i, j | 0 <= i < j < |qs| :: qs[i].id != qs[j].id
  }

  // -------------------------------------------------------- QuizAttempt

  datatype QuizAttempt = QuizAttempt(
    userId: UserId,
    quizId: QuizId,
    selectedOption: Option<AnswerOption>,
    isCorrect: Option<bool>,
    pointsAwarded: int,
    startedAt: Millis,
    submittedAt: Option<Millis>,
    isTimeout: bool)

  /** An attempt as the schema builds it from the three required fields. */
  function NewAttempt(userId: UserId, quizId: QuizId, now: Millis): (a: QuizAttempt)
    ensures a.userId == userId && a.quizId == quizId && a.startedAt == now
    ensures a.selectedOption == None && a.isCorrect == None && a.pointsAwarded == 0
    ensures a.submittedAt == None && !a.isTimeout
  {
    QuizAttempt(userId, quizId, None, None, 0, now, None, false)
  }

  /** The unique compound index `{ userId: 1, quizId: 1 }`. */
  predicate AttemptsUnique(as_: seq<QuizAttempt>) {
    forall i, j | 0 <= i < j < |as_| :: as_[i].userId != as_[j].userId || as_[i].quizId != as_[j].quizId
  }

  // ---------------------------------------------------------------- OTP

  datatype OtpRecord = OtpRecord(email: string, code: string, createdAt: Millis, expiresAt: Millis)

  /** The TTL index `expires: 0` on `expiresAt`: the server may delete a
      record at any moment once its expiry instant has passed. */
  predicate TtlEligible(r: OtpRecord, now: Millis) {
    r.expiresAt < now
  }

  function NewOtp(email: string, code: string, now: Millis, expiresAt: Millis): (r: OtpRecord)
    ensures r.email == Trim(ToLower(email)) && r.code == code
    ensures r.createdAt == now && r.expiresAt == expiresAt
  {
    OtpRecord(Trim(ToLower(email)), code, now, expiresAt)
  }
}
