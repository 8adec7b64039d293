/** The three admin handlers over the user-flag state: the admin copy of the
    detector with its summary, clearing a flag, and sending a warning. */
module Admin {
  import opened Common
  import opened Seqs
  import opened Models
  import opened Detector
  import opened DetectorStore
  import opened AdminReport
  import opened UserStore

  // ---------------------------------------------- check-suspicious route

  /** The JSON body of a completed check. */
  datatype Summary = Summary(ip: nat, coords: nat, flaggedUsers: seq<Entry>, totalViolations: nat)

  datatype CheckReply = CheckUnauthorized | CheckFailed | CheckCompleted(summary: Summary) {
    function Status(): int {
      match this
      case CheckUnauthorized => 401
      case CheckFailed => 500
      case CheckCompleted(_) => 200
    }
  }

  /** `POST /api/admin/check-suspicious`.  The detector pass runs over the
      snapshot exactly as `checkSuspiciousActivity` does; `failAt` is the
      index of the store update that throws, if one does, in which case the
      updates before it stay and the reply is a 500.  Building the IP groups
      throws before any update when a signup IP is an inherited object key. */
  function CheckSuspicious(auth: Option<Session>, users: seq<User>, preds: seq<Prediction>,
                           dist: Distance, failAt: Option<nat>): (out: (CheckReply, seq<User>))
    ensures !IsAdmin(auth) ==> out == (CheckUnauthorized, users)
    ensures IsAdmin(auth) && GroupingThrows(Profiles(users)) ==> out == (CheckFailed, users)
    ensures IsAdmin(auth) && failAt.None? && !GroupingThrows(Profiles(users)) ==> out.0.CheckCompleted?
    ensures out.0.CheckCompleted? ==>
              && !GroupingThrows(Profiles(users))
              && out.1 == Scan(users, preds, dist)
              && out.0.summary.totalViolations == out.0.summary.ip + out.0.summary.coords
              && |out.0.summary.flaggedUsers| <= 10
              && NoDups(EmailsOf(out.0.summary.flaggedUsers))
    ensures out.0.CheckFailed? && !GroupingThrows(Profiles(users)) ==>
              var log := PassLog(Profiles(users), preds, dist);
              exists k | 0 <= k < |log| :: out.1 == Apply(users, log[..k])
  {
    if !IsAdmin(auth) then (CheckUnauthorized, users)
    else
      var ps := Profiles(users);
      var log := PassLog(ps, preds, dist);
      if GroupingThrows(ps) then (CheckFailed, users)
      else if failAt.Some? && failAt.value < |log| then
        (CheckFailed, Apply(users, log[..failAt.value]))
      else (CheckCompleted(SummaryOf(ps, preds, dist)), Apply(users, log))
  }

  /** The summary of a completed pass: the two rules' write counts, their
      sum, and the first ten of the flagged list de-duplicated by email. */
  function SummaryOf(ps: seq<Profile>, preds: seq<Prediction>, dist: Distance): (s: Summary)
    ensures s.totalViolations == s.ip + s.coords
    ensures |s.flaggedUsers| <= 10
    ensures NoDups(EmailsOf(s.flaggedUsers))
  {
    var ip := |IpLog(ps, preds)|;
    var coords := |CoordLog(ps, preds, dist)|;
    var m := BuildMap(Entries(PassLog(ps, preds, dist)));
    var shown := Take(m, 10);
    assert EmailsOf(shown) == EmailsOf(m)[..|shown|];
    Summary(ip, coords, shown, ip + coords)
  }

  /** A completed check reports: per-user sums of the two rules' firings,
      an even `coords` count, a total equal to the overall rise of
      `timesCaught`, and the first ten of the de-duplicated flagged list. */
  lemma CheckSummary(auth: Option<Session>, users: seq<User>, preds: seq<Prediction>, dist: Distance)
    requires IsAdmin(auth) && UniqueUserIds(users)
    ensures var out := CheckSuspicious(auth, users, preds, dist, None);
            out.0.CheckCompleted? ==>
            var s := out.0.summary;
            var ps := Profiles(users);
            && s.ip == IpHitSum(ps, preds, 0)
            && s.coords == NearHitSum(ps, preds, dist, 0)
            && s.coords % 2 == 0
            && s.totalViolations == RiseSum(users, out.1, 0)
            && s.flaggedUsers == Take(Dedupe(Entries(PassLog(ps, preds, dist))), 10)
  {
    PassCounts(users, preds, dist);
    MapIsDedupe(Entries(PassLog(Profiles(users), preds, dist)));
  }

  // --------------------------------------------------- unflag-user route

  datatype UnflagReply = UnflagUnauthorized | UnflagMissingId | Unflagged {
    function Status(): int {
      match this
      case UnflagUnauthorized => 401
      case UnflagMissingId => 400
      case Unflagged => 200
    }
  }

  /** The update `{ isFlagged: false, flagReason: null }`. */
  function ClearFlag(u: User): User {
    u.(isFlagged := false, flagReason := None)
  }

  /** `POST /api/admin/unflag-user`. */
  function UnflagUser(auth: Option<Session>, userId: Option<string>, users: seq<User>): (out: (UnflagReply, seq<User>))
    ensures !IsAdmin(auth) ==> out == (UnflagUnauthorized, users)
    ensures IsAdmin(auth) && !Present(userId) ==> out == (UnflagMissingId, users)
    ensures IsAdmin(auth) && Present(userId) ==> out.0 == Unflagged
    ensures |out.1| == |users|
    ensures forall i | 0 <= i < |users| ::
              && out.1[i].(isFlagged := users[i].isFlagged, flagReason := users[i].flagReason) == users[i]
              && (out.1[i] != users[i] ==> out.0 == Unflagged && users[i].id == userId.value)
  {
    if !IsAdmin(auth) then (UnflagUnauthorized, users)
    else if !Present(userId) then (UnflagMissingId, users)
    else (Unflagged, UpdateUser(users, userId.value, ClearFlag))
  }

  /** After a successful unflag the stored user reads back unflagged with no
      reason, keeping `timesCaught` and `warningsSent`; an unknown id still
      succeeds and changes nothing; unflagging twice is unflagging once. */
  lemma UnflagEffect(auth: Option<Session>, id: UserId, users: seq<User>)
    requires IsAdmin(auth) && id != "" && UniqueUserIds(users)
    ensures var out := UnflagUser(auth, Some(id), users);
            && out.0 == Unflagged
            && (FindUser(users, id).None? ==> out.1 == users)
            && (FindUser(users, id).Some? ==>
                  var u := FindUser(out.1, id).value;
                  && !u.isFlagged && u.flagReason == None
                  && u.timesCaught == FindUser(users, id).value.timesCaught
                  && u.warningsSent == FindUser(users, id).value.warningsSent)
            && UnflagUser(auth, Some(id), out.1) == out
  {
    FindAfterUpdate(users, id, ClearFlag);
    var r := UpdateUser(users, id, ClearFlag);
    if FindUser(users, id).None? {
      assert forall i | 0 <= i < |users| :: users[i].id != id;
      assert r == users;
    }
    assert UpdateUser(r, id, ClearFlag) == r;
  }

  // -------------------------------------------------- send-warning route

  /** The warning email: recipient and warning number. */
  datatype Mail = Mail(to: string, warningNumber: int)

  datatype WarnReply = WarnUnauthorized | WarnMissingField | WarnUserNotFound | WarnFailed | WarningSent(warningNumber: int) {
    function Status(): int {
      match this
      case WarnUnauthorized => 401
      case WarnMissingField => 400
      case WarnUserNotFound => 404
      case WarnFailed => 500
      case WarningSent(_) => 200
    }
  }

  /** The update `{ warningsSent: n }`. */
  function SetWarnings(n: int): User -> User {
    (u: User) => u.(warningsSent := n)
  }

  /** What the handler does: its reply, the email it tries to send (if it
      gets that far) and the store afterwards. */
  datatype WarnOutcome = WarnOutcome(reply: WarnReply, mail: Option<Mail>, store: seq<User>)

  /** `POST /api/admin/send-warning`.  `mailOk` says whether
      `sendWarningEmail` returns normally; when it throws, the counter is not
      written. */
  function SendWarning(auth: Option<Session>, userId: Option<string>, email: Option<string>,
                       users: seq<User>, mailOk: bool): (out: WarnOutcome)
    ensures out.reply.WarningSent? <==>
              IsAdmin(auth) && Present(userId) && Present(email) && FindUser(users, userId.value).Some? && mailOk
    ensures !out.reply.WarningSent? ==> out.store == users
    ensures !IsAdmin(auth) ==> out.reply == WarnUnauthorized && out.mail == None
    ensures IsAdmin(auth) && !(Present(userId) && Present(email)) ==> out.reply == WarnMissingField && out.mail == None
    ensures IsAdmin(auth) && Present(userId) && Present(email) && FindUser(users, userId.value).None? ==>
              out.reply == WarnUserNotFound && out.mail == None
    ensures IsAdmin(auth) && Present(userId) && Present(email) && FindUser(users, userId.value).Some? ==>
              var n := FindUser(users, userId.value).value.warningsSent + 1;
              && out.mail == Some(Mail(email.value, n))
              && out.reply == (if mailOk then WarningSent(n) else WarnFailed)
    ensures out.reply.WarningSent? ==>
              out.store == UpdateUser(users, userId.value, SetWarnings(out.reply.warningNumber))
  {
    if !IsAdmin(auth) then WarnOutcome(WarnUnauthorized, None, users)
    else if !Present(userId) || !Present(email) then WarnOutcome(WarnMissingField, None, users)
    else
      var found := FindUser(users, userId.value);
      if found.None? then WarnOutcome(WarnUserNotFound, None, users)
      else
        var n := found.value.warningsSent + 1;
        var mail := Mail(email.value, n);
        if !mailOk then WarnOutcome(WarnFailed, Some(mail), users)
        else WarnOutcome(WarningSent(n), Some(mail), UpdateUser(users, userId.value, SetWarnings(n)))
  }

  lemma WarningSuccess(auth: Option<Session>, id: UserId, email: string, users: seq<User>)
    requires IsAdmin(auth) && id != "" && email != ""
    requires FindUser(users, id).Some?
    ensures var n := FindUser(users, id).value.warningsSent + 1;
            SendWarning(auth, Some(id), Some(email), users, true)
              == WarnOutcome(WarningSent(n), Some(Mail(email, n)), UpdateUser(users, id, SetWarnings(n)))
  {
    assert Present(Some(id)) && Present(Some(email));
  }

  /** A successful warning raises the stored counter by exactly one and
      touches nothing else; the next warning to the same user carries the
      next number. */
  lemma WarningCounts(auth: Option<Session>, id: UserId, email: string, users: seq<User>)
    requires IsAdmin(auth) && id != "" && email != "" && UniqueUserIds(users)
    requires FindUser(users, id).Some?
    ensures var first := SendWarning(auth, Some(id), Some(email), users, true);
            var before := FindUser(users, id).value;
            && FindUser(first.store, id) == Some(before.(warningsSent := before.warningsSent + 1))
            && |first.store| == |users|
            && (forall i | 0 <= i < |users| && users[i].id != id :: first.store[i] == users[i])
            && SendWarning(auth, Some(id), Some(email), first.store, true).reply == WarningSent(before.warningsSent + 2)
  {
    var before := FindUser(users, id).value;
    var n := before.warningsSent + 1;
    var first := SendWarning(auth, Some(id), Some(email), users, true);
    assert first.reply == WarningSent(n);
    var r := UpdateUser(users, id, SetWarnings(n));
    assert first.store == r;
    FindAfterUpdate(users, id, SetWarnings(n));
    assert FindUser(r, id).value.warningsSent == n;
  }
}
