# Cricopedia core, modelled in Dafny

Cricopedia is a cricket prediction and quiz site. Players sign up with an
emailed one-time code, predict the winner of upcoming matches before a
deadline, keep a daily prediction streak, take timed multiple-choice quizzes
and appear on a points leaderboard. Administrators create quizzes, scan for
accounts that look like one person playing twice (same sign-up IP, or
sign-up coordinates within 50 metres, predicting opposite teams), warn such
players and clear their flags.

This project models that core as pure functions over an immutable store:

- `Models` — the stored records (user, match, prediction, quiz, quiz attempt,
  one-time code) and the defaults each schema fills in; the password digest
  that the user schema's save hook computes.
- `UserStore`, `Common`, `Seqs`, `Strings` — the user collection as a
  sequence with find-by-id and update-by-id, and the string and sequence
  operations the routes use (lower-casing, trimming, digit filtering,
  decimal printing, insertion sort).
- `Accounts`, `Otp`, `PasswordReset` — sign-up, the sign-up code flow and the
  forgotten-password flow.
- `Predictions`, `MatchCard` — the prediction route with its streak
  bookkeeping, and the match card's view of the same deadline.
- `Quizzes`, `QuizAttempts`, `QuizHistory` — quiz status, listing and
  creation; starting, resuming and submitting an attempt; the history page.
- `Leaderboard`, `Middleware`, `TeamFlags`, `Countdown` — the ranked board,
  the edge redirect rules, the team-flag lookup and the countdown split.
- `Detector`, `DetectorLib`, `DetectorIp`, `DetectorCoords`, `DetectorPass`,
  `DetectorStore`, `Admin`, `AdminReport` — the suspicious-activity scan
  (the library copy run after every prediction and the admin route's copy),
  its writes to the store, and the admin actions.

Each route becomes a function from the request, the caller's session and the
store to a status-coded reply and the new store. Every refusal the route
makes is a branch of the model with the same status code.
Clocks, random draws, mail delivery and the great-circle distance are
parameters.

Behaviours of the code that the model keeps:

- Every length limit counts UTF-16 code units, as JavaScript's `.length`
  and Mongoose's `minlength`/`maxlength` do (`Strings.JsLength`): a
  character beyond the Basic Multilingual Plane, such as an emoji, counts
  twice. Three emoji make a six-unit password that passes the six-character
  rule, and sixteen emoji make a display name over the 30-unit limit.
- The `for...in` loops over the IP groups visit an IP that reads as an
  array index ("2", "10") before every other IP and in numeric order, not
  in signup order, and the admin summary lists its flagged users in that
  order (`Detector.IpOrder`, `Detector.IntegerLikeIpsSorted`). The
  per-match buckets follow the same key order (`Detector.MatchOrder`);
  real match ids are 24-character ObjectId texts, never array indices, so
  for them that order is the order the buckets were added.
- The flag strings of `teamFlags.ts` are kept as the file's text spells
  them. That text is doubly encoded: flag emoji whose UTF-8 bytes were read
  back as Windows-1251, so India's flag is the eight characters `рџ‡®рџ‡і` and
  the default is `рџЏЏ`. `TeamFlags.Lookup` returns exactly these strings,
  not the emoji the authors evidently meant.
- The scan raises a user's `timesCaught` once per firing match bucket and
  once per near pair with opposite predictions, with no cap per scan; every
  prediction reruns the scan, so counts keep rising for the same evidence
  (`DetectorIp.IpMultiplicity`, `DetectorCoords.CoordMultiplicity`,
  `DetectorPass.PassTwice`).
- The match card locks at the deadline instant, while the prediction route
  still accepts a prediction made exactly then (`MatchCard.DeadlineInstant`).
- A completed match with no winner shows "Wrong" on the card, since the card
  compares the pick against an empty winner (`MatchCard.ResultLine`).
- The quiz history page populates the quiz with its correct option, so a
  player who has started a live quiz can read the answer there while the
  listing hides it (`QuizHistory.HistoryShowsAnswerEarly`).
- The forgot-password verify route accepts a code at its expiry instant,
  where the sign-up verify route already refuses it
  (`PasswordReset.ExpiryInstant`).

## Model

| member | source | states |
|---|---|---|
| Models.NewUser | src/models/User.ts:35-113 | a new user has the schema defaults (zero points and streaks, not flagged, no warnings), the given id and creation instant, the email trimmed and lower-cased and the phone trimmed |
| Models.Digest | src/models/User.ts:116-121 | the digest is longer than the password by a fixed tag, in characters and in UTF-16 code units, so it never equals the plain text it hashes |
| Strings.JsLength | src/app/api/auth/signup/route.ts:17 | `.length` counts UTF-16 code units: between one and two per character, and exactly one per character when none lies beyond the Basic Multilingual Plane |
| Models.DigestInjective | src/models/User.ts:119-120 | different passwords hash differently, so comparing digests compares passwords |
| Models.EmailKeyNormal | src/models/User.ts:36-42 | the stored email form (trimmed, lower-cased) is already in stored form |
| Models.NewMatch | src/models/Match.ts:30-68 | a new match is upcoming with no winner and no flags, keeps the prediction start and deadline given, and its team names are the given names trimmed, so trimming them again changes nothing |
| Models.NewPrediction | src/models/Prediction.ts:15-43 | a new prediction keeps its user, match and trimmed team, with the result fields empty |
| Models.NewAttempt | src/models/QuizAttempt.ts:17-53 | a new attempt is in progress, unanswered and unscored, started at the given instant |
| Models.NewOtp | src/models/OTP.ts:13-33 | a new code record stores the email in stored form, the code, and its expiry |
| UserStore.FindUser | src/app/api/admin/send-warning/route.ts:25 | find by id returns the stored user with that id, and nothing exactly when no user has it |
| UserStore.UpdateUser | src/app/api/admin/send-warning/route.ts:37-39 | update by id replaces exactly the user with that id and leaves every other user and the order alone |
| UserStore.FindAfterUpdate | src/app/api/admin/send-warning/route.ts:37-39 | reading a user back after an update by its id gives the updated record |
| Accounts.Last10 | src/app/api/auth/signup/route.ts:26 | the last ten characters, or the whole string when shorter |
| Accounts.NormalPhone | src/app/api/auth/signup/route.ts:26 | the stored phone is all digits and at most ten long |
| Accounts.PrefixIgnored | src/app/api/auth/signup/route.ts:26 | a country prefix written before a ten-digit number does not change the stored phone |
| Accounts.NormalPhoneIdempotent | src/app/api/auth/signup/route.ts:26 | normalising a stored phone again leaves it unchanged |
| Accounts.NormalName | src/app/api/auth/signup/route.ts:66 | the stored name is present exactly when the trimmed input is non-empty, and is then the trimmed input |
| Accounts.SignupRefusal | src/app/api/auth/signup/route.ts:10-59 | the refusals in the route's order, each exactly when the earlier checks pass: missing field, password under six UTF-16 code units, phone not a ten-digit Indian mobile, email taken, too many sign-ups from the IP |
| Accounts.Signup | src/app/api/auth/signup/route.ts:5-84 | an account is created exactly when no refusal applies and the schema accepts the record (stored-form email of the X@Y.Z shape, display name of at most 30 UTF-16 code units); it is then appended and nothing else changes; a schema rejection gives 500 and no write |
| Accounts.EmojiPasswordLongEnough | src/app/api/auth/signup/route.ts:17-22 | a password of three emoji is six code units and is not refused as short, while "abc" is refused whenever email and phone are present |
| Accounts.EmojiNameLimit | src/models/User.ts:54-58 | fifteen emoji fit the display-name limit of 30 code units and sixteen do not, so the save is refused |
| Accounts.CreatedAccount | src/app/api/auth/signup/route.ts:62-72 | a created account is schema-valid, has the defaults and the stored-form email, a valid mobile, a digest the password matches, and emails stay unique |
| Accounts.AccountFields | src/app/api/auth/signup/route.ts:62-72 | the account holds the email in stored form, a digest the password matches, the normalised phone and name, the sign-up IP and the creation instant |
| Accounts.AccountIsValid | src/app/api/auth/signup/route.ts:62-72 | for inputs that pass the refusals and the schema, the account satisfies the user schema and has a valid mobile |
| Accounts.PhoneTrimmed | src/app/api/auth/signup/route.ts:65 | the stored phone needs no further trimming |
| Accounts.NameTrimmed | src/app/api/auth/signup/route.ts:66 | the stored name needs no further trimming |
| Accounts.NoSecondAccount | src/app/api/auth/signup/route.ts:36-43 | a second sign-up with an email already stored, in any case or spacing, is refused with 409 |
| Accounts.RecentAppend | src/app/api/auth/signup/route.ts:46-59 | one more account from an IP raises that IP's recent count by one and no other IP's |
| Accounts.RateLimit | src/app/api/auth/signup/route.ts:46-59 | an IP's count of recent sign-ups never passes the limit; a created account raises it by one; at the limit the sign-up is refused |
| Accounts.EmailAvailable | src/app/api/auth/signup/route.ts:94-111 | no answer without an email; otherwise available exactly when no user has the email in stored form |
| Otp.GenerateOtp | src/app/api/auth/send-otp/route.ts:7-9 | six digits with no leading zero, valued floor(100000 + draw * 900000), so between 100000 and 999999 |
| Otp.SendOtp | src/app/api/auth/send-otp/route.ts:11-68 | the refusals in order (missing email, malformed address, already registered); past them the email's records are replaced by one fresh record, and the mail goes out and the reply is success exactly when delivery works |
| Otp.SendLeavesOne | src/app/api/auth/send-otp/route.ts:43-54 | after sending, the email has exactly one code record, the new one |
| Otp.SentStore | src/app/api/auth/send-otp/route.ts:43-54 | after a send the store is the other emails' records followed by the fresh record, whose code is non-empty and which expires ten minutes on |
| Otp.Issued | src/app/api/auth/send-otp/route.ts:47-54 | the record holds the email in stored form and the code, and expires ten minutes after it is created |
| Otp.VerifyOtp | src/app/api/auth/verify-otp/route.ts:9-41 | verification succeeds exactly when a record for the email has the code and a later expiry, and then deletes the first such record; otherwise nothing changes |
| Otp.FirstMatch | src/app/api/auth/verify-otp/route.ts:19-23 | the lookup finds the first record with that email, code and a later expiry, and none exactly when no record qualifies |
| Otp.RemoveAt | src/app/api/auth/verify-otp/route.ts:33 | deleting one record removes that record only |
| Otp.VerifyWithoutRecord | src/app/api/auth/verify-otp/route.ts:25-30 | with no record for the email the reply is the invalid-or-expired refusal and the store is unchanged |
| Otp.VerifyLastRecord | src/app/api/auth/verify-otp/route.ts:19-33 | with the email's only record appended last, verification succeeds exactly when the code matches and the record has not expired, and removes that record |
| Otp.SendThenVerify | src/app/api/auth/verify-otp/route.ts:33 | after a send, verification succeeds exactly when given the code sent before it expires |
| Otp.SendThenVerifyOnce | src/app/api/auth/verify-otp/route.ts:33 | a code verifies once; the same code a second time is refused |
| PasswordReset.FindByEmail | src/app/api/auth/forgot-password/reset/route.ts:29 | the user found has the email, and none is found exactly when no user has it |
| PasswordReset.ForgotSendOtp | src/app/api/auth/forgot-password/send-otp/route.ts:9-44 | 400 without an email, 404 for an unknown one; otherwise the email's records are replaced by one fresh code and the mail goes out exactly when delivery works |
| PasswordReset.ForgotSentStore | src/app/api/auth/forgot-password/send-otp/route.ts:28-35 | after sending, the store is the other emails' records followed by the fresh record, which expires ten minutes on |
| PasswordReset.ForgotVerifyOtp | src/app/api/auth/forgot-password/verify-otp/route.ts:9-32 | refuses missing fields and a code no record holds; an expired code is refused and its record deleted; an accepted code leaves the store alone |
| PasswordReset.AcceptRepeats | src/app/api/auth/forgot-password/verify-otp/route.ts:31-32 | an accepted code is accepted again on a second check at the same or an earlier instant, since acceptance deletes nothing |
| PasswordReset.ExpiryInstant | src/app/api/auth/forgot-password/verify-otp/route.ts:26 | this route still accepts at the expiry instant, where the sign-up verify route has already refused |
| PasswordReset.ResetPassword | src/app/api/auth/forgot-password/reset/route.ts:11-45 | the route as written: refusals for missing fields, a password under six UTF-16 code units, no record for the email, unknown user; on success the user's password becomes the digest of the digest and the email's records are deleted |
| PasswordReset.EmojiResetPasswordLongEnough | src/app/api/auth/forgot-password/reset/route.ts:15-17 | a new password of three emoji is six code units, so neither the reset as written nor the corrected one refuses it as short |
| PasswordReset.ResetLocksOut | src/app/api/auth/forgot-password/reset/route.ts:36-40 | after a reset as written, the new password does not match the stored digest |
| PasswordReset.ResetOnAnyRecord | src/app/api/auth/forgot-password/reset/route.ts:22-26 | the route as written lets the reset through whenever any record for the email exists |
| PasswordReset.ResetWithoutCode | src/app/api/auth/forgot-password/reset/route.ts:21-26 | after the forgot-password route sends a code, the route as written changes the password without being given any code |
| PasswordReset.ResetPasswordChecked | src/app/api/auth/forgot-password/reset/route.ts:21-45 | the intended reset succeeds exactly when all fields are present, the password has at least six UTF-16 code units, an unexpired record has the code and the user exists; it stores the digest of the password and deletes the email's records |
| PasswordReset.CheckedResetLogsIn | src/app/api/auth/forgot-password/reset/route.ts:36-45 | after the intended reset, the new password matches the stored digest |
| PasswordReset.CheckedResetTouchesOne | src/app/api/auth/forgot-password/reset/route.ts:29-40 | the intended reset leaves every user with another email unchanged |
| PasswordReset.CheckedResetOnce | src/app/api/auth/forgot-password/reset/route.ts:43 | after an intended reset the same email and code are refused, with any password at any later time |
| PasswordReset.CheckedResetOnLast | src/app/api/auth/forgot-password/reset/route.ts:21-45 | with the email's only record appended last, the intended reset succeeds exactly when the code matches and the record has not expired |
| PasswordReset.CheckedResetGate | src/app/api/auth/forgot-password/reset/route.ts:21-26 | for a stored user, the intended reset succeeds exactly when an unexpired record has the code |
| PasswordReset.CheckedResetNeedsCode | src/app/api/auth/forgot-password/reset/route.ts:21-26 | after the forgot-password send, the intended reset succeeds exactly when given the code sent before it expires |
| Predictions.FindMatch | src/app/api/predictions/route.ts:63 | the match found has the id, and none is found exactly when no match has it |
| Predictions.DayNext | src/app/api/predictions/route.ts:134 | the day number of an instant one day later is one more |
| Predictions.Rejection | src/app/api/predictions/route.ts:44-113 | the refusals in the route's order: no session, missing field, unknown match, started, past the deadline, not upcoming, already predicted, team not playing |
| Predictions.Predict | src/app/api/predictions/route.ts:40-175 | a prediction is stored exactly when no refusal applies; the effects start with saving it and end with the detector run, and the user store gets the streak update |
| Predictions.PredictKeepsUnique | src/app/api/predictions/route.ts:95-105 | no user ever holds two predictions for one match |
| Predictions.CreatedTeamIsPlaying | src/app/api/predictions/route.ts:108-113 | every stored prediction names one of the match's two teams |
| Predictions.CreatedUpdatesUser | src/app/api/predictions/route.ts:125-161 | a successful prediction by a stored user saves that user with the streak update, and the store reads it back so |
| Predictions.NextStreak | src/app/api/predictions/route.ts:130-160 | the last prediction instant becomes now; a first prediction starts a streak of one; the next calendar day extends the streak by one, raises the longest to it if longer and pays the bonus for the new length; a gap of two days or more restarts the streak at one; the same day or an earlier one leaves streak, longest and points alone; points and the longest streak never fall, and points rise only on the next day at a streak of 3, 5 or 7 |
| Predictions.StreakBonus | src/app/api/predictions/route.ts:142-149 | the bonus is never negative and is positive exactly at streaks 3, 5 and 7 |
| Predictions.ConsecutiveRun | src/app/api/predictions/route.ts:136-149 | predicting on k consecutive days from no history gives a streak of k, a longest streak of at least k once k is two or more, the run's bonuses, and the k-th day as the last |
| Predictions.SameDayIdempotent | src/app/api/predictions/route.ts:154 | repeating the update at the same instant changes nothing |
| Predictions.GapResets | src/app/api/predictions/route.ts:150-153 | a gap of more than a day resets the streak to one and keeps the longest streak and the points |
| Predictions.StreakTouches | src/app/api/predictions/route.ts:125-161 | the streak update changes only the streak fields, the points and the last prediction day |
| MatchCard.Window | src/components/MatchCard.tsx:17-23 | the card is not-started exactly before the prediction start, never both open and locked, and always one of the three |
| MatchCard.CardAgreesWithServer | src/components/MatchCard.tsx:22-23 | where the card is open the route accepts the timing; they disagree only at the deadline instant; the card locks from the deadline on |
| MatchCard.DeadlineInstant | src/components/MatchCard.tsx:22-23 | at the deadline instant the card is locked while the route still accepts the timing |
| MatchCard.Label | src/components/MatchCard.tsx:158-168 | View result exactly for a completed match; otherwise View your prediction exactly when there is a pick; without a pick, Coming soon exactly when the window has not opened, Predictions locked exactly when it has opened and is locked, and Make prediction exactly when the card is open |
| MatchCard.InviteIsAccepted | src/components/MatchCard.tsx:158-168 | a card that invites a prediction shows an instant the route accepts |
| MatchCard.ResultLine | src/components/MatchCard.tsx:111-124 | a result line shows exactly for a completed match with a pick, and says Correct exactly when the winner is the pick |
| Quizzes.ComputeStatus | src/app/api/quiz/route.ts:8-34 | draft stays draft; otherwise ended after the end, live from the start to the end inclusive, scheduled before the start |
| Quizzes.StatusAdvances | src/app/api/quiz/route.ts:14-33 | as time passes a quiz's status only moves forward, and a quiz that starts after it ends is never live |
| Quizzes.ParseStatus | src/app/api/quiz/route.ts:51 | exactly the four status words parse |
| Quizzes.Shown | src/app/api/quiz/route.ts:96-110 | for a player, a live or scheduled quiz has its question, options and correct option hidden; for an admin, or any other status, the quiz is shown as it is |
| Quizzes.ViewLeIsTotal | src/app/api/quiz/route.ts:85-91 | the listing order is a total order |
| Quizzes.ListQuizzes | src/app/api/quiz/route.ts:37-112 | the listing is a permutation of the selected quizzes' cards, sorted by the listing order |
| Quizzes.ListingContents | src/app/api/quiz/route.ts:47-110 | a quiz's card appears exactly when the quiz is selected for the caller, the status parameter and includeEnded |
| Quizzes.PlayerListing | src/app/api/quiz/route.ts:57 | a player's default listing has no drafts, only scheduled and live quizzes unless ended ones are asked for, hides the answer of scheduled and live ones and shows it for ended ones |
| Quizzes.AdminListing | src/app/api/quiz/route.ts:49-53 | an admin with no or an unrecognised status filter sees every quiz, unredacted |
| Quizzes.ParseOption | src/app/api/quiz/route.ts:156 | exactly "A" and "B" parse as options |
| Quizzes.Built | src/app/api/quiz/route.ts:181-192 | a new quiz has the given question, trimmed texts, option and times, draft status when none is given, and the default points and penalty for omitted ones |
| Quizzes.CreateQuiz | src/app/api/quiz/route.ts:123-207 | the refusals in order (no admin, missing field, bad option, end not after start, duplicate number, schema rejection) and on success one appended quiz |
| Quizzes.CreateKeepsUnique | src/app/api/quiz/route.ts:173-179 | question numbers stay unique, and ids too given a fresh id; a created quiz starts before it ends, and the same form again is refused as a duplicate |
| QuizAttempts.FindAttempt | src/app/api/quiz/attempt/route.ts:77 | the attempt found is the user's for the quiz, and none exactly when the user has none |
| QuizAttempts.RemainingMs | src/app/api/quiz/attempt/route.ts:84-85 | never negative, at most the timer, zero exactly once the timer has run out, otherwise the timer less the time since start |
| QuizAttempts.AttemptableIsLive | src/app/api/quiz/attempt/route.ts:46-48 | the attempt route's liveness test holds exactly when the listing computes the status live |
| QuizAttempts.RefusalOf | src/app/api/quiz/attempt/route.ts:50-74 | a quiz that cannot be attempted gets the draft, not-started or ended refusal, each exactly in its case, and never the catch-all |
| QuizAttempts.StartAttempt | src/app/api/quiz/attempt/route.ts:11-123 | 401, 400 and 404 in order; a quiz that is not live is refused; a live quiz resumes the user's attempt with its remaining time and flags, or appends a new one with the full timer |
| QuizAttempts.StartOnce | src/app/api/quiz/attempt/route.ts:77-109 | starting keeps one attempt per user and quiz; a later second start resumes the first with the timer counted from the first start, unless the quiz has ended |
| QuizAttempts.AttemptStatus | src/app/api/quiz/attempt/route.ts:134-175 | 401, 400, no attempt; otherwise the user's attempt, the remaining time within the timer, timeout exactly when time ran out unsubmitted, and the submitted flag |
| QuizAttempts.StatusAgreesWithResume | src/app/api/quiz/attempt/route.ts:84-98 | the status route and a resumed start report the same remaining time and flags |
| QuizAttempts.Score | src/app/api/quiz/attempt/submit/route.ts:100-101 | the quiz's points for the correct option and minus the wrong-answer penalty otherwise |
| QuizAttempts.Submit | src/app/api/quiz/attempt/submit/route.ts:13-126 | each reply holds exactly when its check is the first to apply: no session, missing field, bad option, no attempt, already submitted, timed out (with the timeout recorded), quiz missing (404), quiz ended (400), and an answer is scored exactly when the attempt is open and in time and the quiz exists and has not ended; on success the scored attempt and the user's points |
| QuizAttempts.SubmitOnce | src/app/api/quiz/attempt/submit/route.ts:58-116 | a submission records its instant; a second one is refused as already done and changes nothing; the user's points rise by exactly the points awarded |
| QuizAttempts.GraceWindow | src/app/api/quiz/attempt/submit/route.ts:67 | within one second after the timer runs out, the start route shows no time left and a timeout, yet a submission is not too late |
| QuizAttempts.RoutesKeepWellFormed | src/app/api/quiz/attempt/submit/route.ts:69-70 | attempts keep one of three shapes (started; timed out with an end instant; answered with an end instant, choice and verdict) through both routes |
| QuizAttempts.FindAfterUpdateAttempt | src/app/api/quiz/attempt/submit/route.ts:45-48 | reading an attempt back after updating it gives the update |
| QuizHistory.OfUser | src/app/api/user/quiz-history/route.ts:30 | exactly the user's attempts |
| QuizHistory.StatsOf | src/app/api/user/quiz-history/route.ts:42-48 | the totals count every attempt given |
| QuizHistory.StatsAddUp | src/app/api/user/quiz-history/route.ts:42-48 | over well-formed attempts, correct, wrong, timed-out and unanswered add up to the total |
| QuizHistory.NewerFirstIsTotal | src/app/api/user/quiz-history/route.ts:35 | the newest-first order is a total order |
| QuizHistory.ItemOf | src/app/api/user/quiz-history/route.ts:31-34 | each item carries its attempt and the summary of its quiz, or none when the quiz is gone |
| QuizHistory.CeilDiv | src/app/api/user/quiz-history/route.ts:57 | the ceiling of total over limit, for a limit of either sign |
| QuizHistory.Window | src/app/api/user/quiz-history/route.ts:36-37 | the items after the skip, cut to the absolute value of the limit, or all of them when the limit is zero |
| QuizHistory.PageItems | src/app/api/user/quiz-history/route.ts:30-38 | the page holds the user's attempts, newest first, as many as remain after the skip up to the limit |
| QuizHistory.History | src/app/api/user/quiz-history/route.ts:8-59 | 401 without a session; a negative skip fails; otherwise the page, limit, total, totals, page count (none for a zero limit) and page items |
| QuizHistory.PagesCover | src/app/api/user/quiz-history/route.ts:22 | for positive page and limit, a page has items exactly when its number is at most the page count |
| QuizHistory.HistoryShowsAnswerEarly | src/app/api/user/quiz-history/route.ts:31-34 | right after a player starts a live quiz, the listing hides its answer while the history shows the unsubmitted attempt with the quiz summary, correct option included |
| Leaderboard.AheadIsTotal | src/app/api/leaderboard/route.ts:11 | the ranking order (points, then correct predictions) is a total order |
| Leaderboard.Username | src/app/api/leaderboard/route.ts:17 | the display name when present, else the email's part before the at sign, else a fixed anonymous name; never empty |
| Leaderboard.RowOf | src/app/api/leaderboard/route.ts:15-22 | a row carries its rank, the shown name, points, correct and wrong predictions, badges and current streak |
| Leaderboard.Top | src/app/api/leaderboard/route.ts:9-13 | the first min(n, 100) users in ranking order, drawn from the store, and every user left out ranks at or below the last one listed |
| Leaderboard.CutOff | src/app/api/leaderboard/route.ts:11-12 | a prefix of a ranked list leaves out only users ranked at or below its last entry |
| Leaderboard.Board | src/app/api/leaderboard/route.ts:15-23 | one row per ranked user, the i-th with rank i |
| Leaderboard.BoardIsRanked | src/app/api/leaderboard/route.ts:15-16 | ranks run 1, 2, 3 and are distinct; points never rise down the board, ties by correct predictions; no user left out beats the last row |
| Middleware.Decide | src/middleware.ts:5-35 | the middleware function: each of the three redirects holds exactly when its rule applies and the earlier rules do not |
| Middleware.Route | src/middleware.ts:38-47 | a path the matcher does not list is served untouched; on a listed path each redirect holds exactly when its rule applies and the earlier rules do not |
| Middleware.TargetsClassified | src/middleware.ts:14-33 | the sign-in pages are neither player-only nor admin paths, and the dashboard is player-only |
| Middleware.RedirectsSettle | src/middleware.ts:14-33 | following a redirect reaches a page served after at most one more redirect |
| Middleware.AnonymousKeptOut | src/middleware.ts:21-28 | the middleware function redirects a caller without a token from every path it classes as player-only or admin |
| Middleware.MatchedAnonymousKeptOut | src/middleware.ts:38-47 | a caller without a token is redirected from every path the matcher lists under `/dashboard`, `/predictions`, `/matches` or `/admin`, except the admin sign-in page |
| Middleware.MatcherSkipsLookalike | src/middleware.ts:14-15 | `/matchesfoo` is a player-only path to the middleware function, but the matcher never hands it over, so it is served untouched |
| Middleware.TokenOpensUserPaths | src/middleware.ts:21-23 | any token opens the player-only paths |
| Middleware.AdminNeverRedirected | src/middleware.ts:26-31 | an admin token is never redirected |
| Middleware.AdminLoginAlwaysOpen | src/middleware.ts:18 | the admin sign-in page is open to everyone |
| TeamFlags.FirstAnswer | src/lib/teamFlags.ts:55-62 | the first table entry answering a tier, and none exactly when no entry does |
| TeamFlags.Lookup | src/lib/teamFlags.ts:47-71 | the flag is a table flag or the default, and the default whenever no entry answers in any tier |
| TeamFlags.ExactKeyWins | src/lib/teamFlags.ts:49-51 | a name that is a key with a non-empty flag gets that flag |
| TeamFlags.FoldedKeyWins | src/lib/teamFlags.ts:54-59 | when no key equals the name exactly, the first key equal to it ignoring case wins |
| TeamFlags.PartialKeyWins | src/lib/teamFlags.ts:62-67 | otherwise the first key containing, or contained in, the name ignoring case wins |
| TeamFlags.CaseBlind | src/lib/teamFlags.ts:54-67 | names differing only in case get the same flag when neither is a key |
| TeamFlags.EmptyNameGetsFirst | src/lib/teamFlags.ts:62-64 | the empty name gets the first entry's flag, not the default |
| TeamFlags.TableWellFormed | src/lib/teamFlags.ts:2-45 | the table has 39 entries, none with an empty key or flag |
| TeamFlags.EmptyTeamName | src/lib/teamFlags.ts:62-64 | the empty team name shows India's flag |
| Countdown.CalculateTimeLeft | src/components/CountdownTimer.tsx:22-38 | a zero split exactly when the target is reached; otherwise in-range parts adding up to the time left within a second |
| Countdown.Recombine | src/components/CountdownTimer.tsx:33-38 | the four divisions recombine to the difference less its sub-second part |
| Countdown.SplitRoundTrip | src/components/CountdownTimer.tsx:33-38 | every in-range split, with up to 999 ms to spare, is shown as itself |
| Countdown.FormatNum | src/components/CountdownTimer.tsx:59 | at least two digits reading back max(0, n), exactly two below a hundred, and no leading zero when longer |
| Detector.KeyOrder | src/lib/checkSuspicious.ts:41 | `for...in` visits every key once, the array-index keys first in strictly ascending numeric order, then the other keys in the order they were added; nothing is lost or repeated |
| Detector.IpOrder | src/lib/checkSuspicious.ts:30-41 | the IP groups are visited once each, array-index IPs first in ascending numeric order, then the other IPs in order of the first user with each |
| Detector.IntegerLikeIpsSorted | src/lib/checkSuspicious.ts:30-41 | two users on "10" who signed up before two users on "2" still have the "2" group visited first |
| Detector.NamedIpsInSignupOrder | src/lib/checkSuspicious.ts:30-41 | when no IP reads as an array index, as with every dotted address, the groups are visited in order of their first user |
| Detector.NamedKeysKeepOrder | src/lib/checkSuspicious.ts:41 | when no key reads as an array index, `for...in` visits the keys exactly in the order they were added |
| Detector.MatchOrder | src/lib/checkSuspicious.ts:52-62 | the group's match buckets are each visited once, one per match the group predicted on |
| Detector.Round | src/lib/checkSuspicious.ts:121 | the logged distance is the nearest whole number, halves rounding up |
| Detector.EmailOf | src/app/api/admin/check-suspicious/route.ts:42-45 | "Unknown" exactly when no profile has the id or its email is empty or "Unknown" |
| DetectorLib.FlagSameIp | src/lib/checkSuspicious.ts:70-81 | the loop over the bucket's ids leaves the store as the reference writes for a firing bucket do |
| DetectorLib.FlagBucket | src/lib/checkSuspicious.ts:62-83 | the loop leaves the store as the reference bucket writes do: every predictor flagged when the bucket names two teams, nothing otherwise |
| DetectorLib.FlagGroup | src/lib/checkSuspicious.ts:41-84 | the loop over the group's matches leaves the store as the reference group writes do; a group under two users writes nothing |
| DetectorLib.FlagIpGroups | src/lib/checkSuspicious.ts:29-84 | the loop over the IP groups leaves the store as the reference IP pass does |
| DetectorLib.FindOpposite | src/lib/checkSuspicious.ts:112-115 | a prediction of the second user on the same match with the other team, and none exactly when there is none |
| DetectorLib.FindAnyOpposite | src/lib/checkSuspicious.ts:111-135 | the search finds an opposite exactly when the two users predicted different teams on some match |
| DetectorLib.FlagPair | src/lib/checkSuspicious.ts:94-136 | the pair step leaves the store as the reference pair writes do: both users flagged with the rounded distance when near and opposed |
| DetectorLib.FlagRow | src/lib/checkSuspicious.ts:90-137 | the inner loop leaves the store as the reference row writes do |
| DetectorLib.FlagNearPairs | src/lib/checkSuspicious.ts:86-138 | the outer loop leaves the store as the reference coordinate pass does |
| DetectorLib.CheckSuspiciousActivity | src/lib/checkSuspicious.ts:21-142 | with no error the scan leaves the store as the reference scan does: the IP pass's writes, then the coordinate pass's; when a signup IP is a key every object inherits (`constructor`, `__proto__`, …), grouping throws before any write and the store is left as it was; when a store update rejects, the writes before it stay and no later one is made |
| DetectorIp.GroupSize | src/lib/checkSuspicious.ts:43 | a user's IP group has two or more members exactly when another user shares that IP |
| DetectorIp.BucketFiresIff | src/lib/checkSuspicious.ts:62-68 | a bucket fires exactly when its predictions name two different teams |
| DetectorIp.BucketLogCount | src/lib/checkSuspicious.ts:68-81 | a firing bucket writes each of its predictors once |
| DetectorIp.IpMultiplicity | src/lib/checkSuspicious.ts:41-84 | the IP pass writes a user once per firing bucket of its IP group that holds one of its predictions |
| DetectorIp.NoIpNoWrite | src/lib/checkSuspicious.ts:31-38 | a user without a sign-up IP is never written by the IP pass |
| DetectorCoords.CoordMultiplicity | src/lib/checkSuspicious.ts:86-138 | the coordinate pass writes a user once per near pair with an opposite prediction it belongs to |
| DetectorCoords.NoCoordsNoWrite | src/lib/checkSuspicious.ts:87 | a user without sign-up coordinates is never written by the coordinate pass |
| DetectorPass.PassEffect | src/lib/checkSuspicious.ts:72-79 | after the scan a user's count rises by its hits, it is flagged exactly when it was or was hit, an unhit user is unchanged, its reason is a nearby one when it has a near partner and else the shared-IP one, and no other field changes |
| DetectorPass.BucketFlagsEveryPredictor | src/lib/checkSuspicious.ts:70-79 | after the scan every predictor in a firing bucket is flagged and its count raised |
| DetectorPass.NearPairFlagsBoth | src/lib/checkSuspicious.ts:102-133 | after the scan both users of a near pair with opposite predictions are flagged |
| DetectorPass.NoFalsePositive | src/lib/checkSuspicious.ts:30-138 | a user the scan newly flags shares an IP or nearby coordinates with a user who predicted the other team on a match |
| DetectorPass.PassTwice | src/lib/checkSuspicious.ts:26-27 | a second scan over the scanned store makes the same writes again, so each count rises by twice the hits |
| DetectorStore.ApplyEffect | src/lib/checkSuspicious.ts:118-131 | after a log of writes each user is as the writes addressed to it alone leave it |
| DetectorStore.ApplyTouchesOnlyFlagFields | src/lib/checkSuspicious.ts:73-79 | writes change only the flag, reason and count; counts never fall and a flagged user stays flagged |
| DetectorStore.ApplyKeepsProfiles | src/lib/checkSuspicious.ts:26-27 | writes do not change the users' ids, emails, IPs or coordinates, so a second scan sees the same groups |
| Admin.CheckSuspicious | src/app/api/admin/check-suspicious/route.ts:24-175 | non-admins get 401 and no writes; a completed run leaves the library scan's store and a summary (total = IP + coordinates, at most ten distinct emails); a signup IP that is an inherited object key makes the grouping throw, giving 500 with no writes; any other failure part-way leaves a prefix of the writes applied |
| Admin.SummaryOf | src/app/api/admin/check-suspicious/route.ts:163-169 | the report lists each flagged email once, at most ten, with the violation total |
| Admin.CheckSummary | src/app/api/admin/check-suspicious/route.ts:163-169 | for a completed run, the IP and coordinate counts are the passes' hit sums, the coordinate count is even, the total equals the rise of all counts in the store, and the list is the first ten deduplicated writes |
| AdminReport.MapIsDedupe | src/app/api/admin/check-suspicious/route.ts:163 | filling the email-keyed map gives the reference deduplication: each email once, in first-seen order, with the last entry pushed for it |
| AdminReport.PairsLogEven | src/app/api/admin/check-suspicious/route.ts:152 | the coordinate pass logs two entries per near pair, so its count is even |
| AdminReport.PassCounts | src/app/api/admin/check-suspicious/route.ts:99-169 | each count equals its pass's number of writes, the coordinate count is even, and together they equal the total rise of the users' counts |
| Admin.UnflagUser | src/app/api/admin/unflag-user/route.ts:11-28 | 401 and 400 change nothing; otherwise the reply is success and only the flag and reason of the user with that id may change |
| Admin.UnflagEffect | src/app/api/admin/unflag-user/route.ts:23-28 | unflagging a stored user clears flag and reason and keeps count and warnings, and a repeat changes nothing; an unknown id still succeeds and changes nothing |
| Admin.SendWarning | src/app/api/admin/send-warning/route.ts:12-47 | success exactly for an admin with both fields, a stored user and a delivered mail; the mail carries the count one above the stored one; only success writes the store, setting that count |
| Admin.WarningSuccess | src/app/api/admin/send-warning/route.ts:31-44 | a sent warning raises the user's warning count by one and reports the new count |
| Admin.WarningCounts | src/app/api/admin/send-warning/route.ts:31-39 | two warnings in a row report counts one and two above the start, and the first changes only that user |

## Left out

- `Middleware.Route`: the matcher is modelled by its literal entries; the framework's own path normalisation (trailing slashes, locale prefixes, internal data routes) is not modelled.
- The great-circle distance of `checkSuspicious.ts` is a parameter of the scan; the model keeps the 50-metre test and the rounding of the logged distance, not the trigonometry (floating point).
- `Math.random` in code generation is a parameter `draw` in [0, 1) given as a rational; the bcrypt salt is left out and the digest is a tagged copy of the password, which keeps determinism and injectivity.
- Mail delivery is a boolean parameter saying whether the mailer succeeded; the message text is not modelled.
- The clock is a parameter; days for the streak are whole UTC day numbers, where the source uses local-time midnights.
- MongoDB internals: ids are opaque, a collection is a sequence in insertion order, `findOne` returns the first match in that order, an id that fails to parse (CastError) is treated as not found, and TTL deletion of expired codes happens at no particular time and is not modelled (expired codes are instead refused by the verify routes).
- Concurrency: the detector runs unawaited after a prediction, and the send-warning route reads then writes; the model runs each request to completion in turn.
- Case folding covers ASCII letters only; Unicode case rules are not modelled.
- `parseInt` of the page and limit parameters: the model receives the parsed whole numbers.
- Date strings and JSON encoding of replies: instants are millisecond integers and replies are datatypes.
- Sort tie order: where the sort keys tie, the source leaves the order to MongoDB; the model's contracts say nothing about the order of tied records.
- The thin routes (single lookups such as the user profile, match listing and admin user listing) and the React pages other than the match card and countdown are not part of this model.
- Email lookups compare the stored form (trimmed, lower-cased); an email stored in another form is not found, as in the source.
- Sign-up does not consult the code store: a sign-up that skipped the emailed code is accepted, as in the source.
- `TeamFlags.Lookup`: keys inherited from the object prototype (such as `constructor`) are not modelled; `TeamFlags.ExactKeyWins` takes distinct keys as a requirement, which any object literal meets.
- The countdown's React state, timer and NaN inputs are left out; `Countdown.FormatNum` takes whole numbers.
- The token decoding of `getToken` is left out; the middleware takes the decoded session or none.
- `Tournament.ts` and its pages are not part of this model.
- Predictions.SameDayIdempotent: stated for a repeat at the same instant; a later prediction on the same day also keeps the streak and points (the same-day branch of `Predictions.NextStreak`), but moves the last prediction instant, so it is not an exact repeat.
- Leaderboard.RowOf: the model's user record always has its counters and badges, so the route's fallbacks to 0 and to an empty badge list never apply.
- QuizHistory.StatsOf: states only the total; how the four buckets partition it is `QuizHistory.StatsAddUp`, for attempts in the shapes the routes write.

## Findings

| source | as written | input that shows it | evidently intended | confidence | as-written member | corrected member |
|---|---|---|---|---|---|---|
| src/app/api/auth/forgot-password/reset/route.ts:36-40 with src/models/User.ts:116-121 | the route hashes the new password and saves it; the save hook hashes the modified field again | any reset that gets through: afterwards the new password does not match the stored digest, so the user cannot sign in | hand the plain password to the save hook and hash it once | not executed | PasswordReset.ResetLocksOut | PasswordReset.CheckedResetLogsIn |
| src/app/api/auth/forgot-password/reset/route.ts:21-26 | the route looks up any code record for the email and never compares the code, nor the expiry | a request with the email, a new password and no code, while any record for that email exists | require a record with the submitted code that has not expired, and delete the email's codes afterwards | not executed | PasswordReset.ResetWithoutCode | PasswordReset.CheckedResetNeedsCode |
