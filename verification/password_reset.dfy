/** The forgotten-password flow: `POST /api/auth/forgot-password/send-otp`,
    `.../verify-otp` and `.../reset`, over the OTP and user collections. */
module PasswordReset {
  import opened Common
  import opened Strings
  import opened Models
  import opened Otp

  // ------------------------------------------------------------ users

  /** `User.findOne({ email: key })`: the position of the first account
      holding the address. */
  function FindByEmail(users: seq<User>, key: string): (r: Option<nat>)
    ensures r.None? <==> !EmailTaken(users, key)
    ensures r.Some? ==> r.value < |users| && users[r.value].email == key
    ensures r.Some? ==> forall i | 0 <= i < r.value :: users[i].email != key
  {
    if |users| == 0 then None
    else if users[0].email == key then Some(0)
    else
      var rest := FindByEmail(users[1..], key);
      if rest.None? then
        assert forall i | 1 <= i < |users| :: users[i] == users[1..][i - 1];
        None
      else
        assert forall i | 1 <= i < rest.value + 1 :: users[i] == users[1..][i - 1];
        Some(rest.value + 1)
  }

  // --------------------------------------------------------- send-otp

  datatype ForgotSendReply =
    | ForgotMissingEmail
    | NoAccount
    | ResetCodeSent
    | ResetSendFailed
  {
    function Status(): int {
      match this
      case ForgotMissingEmail => 400
      case NoAccount => 404
      case ResetCodeSent => 200
      case ResetSendFailed => 500
    }
  }

  /** `POST /api/auth/forgot-password/send-otp`.  Unlike the signup
      route there is no format check; the code goes to the normalised
      address; a mail failure leaves the new code stored. */
  function ForgotSendOtp(email: Option<string>, draw: real, mailOk: bool, users: seq<User>,
                         otps: seq<OtpRecord>, now: Millis): (out: (ForgotSendReply, seq<OtpRecord>, Option<Mail>))
    requires 0.0 <= draw < 1.0
    ensures out.0.ForgotMissingEmail? <==> !Present(email)
    ensures out.0.NoAccount? <==> Present(email) && !EmailTaken(users, EmailKey(email.value))
    ensures out.0.ResetCodeSent? || out.0.ResetSendFailed? <==>
              Present(email) && EmailTaken(users, EmailKey(email.value))
    ensures out.0.ResetCodeSent? || out.0.ResetSendFailed? ==>
              && out.1 == WithoutEmail(otps, EmailKey(email.value)) + [Issued(email.value, GenerateOtp(draw), now)]
              && (out.0.ResetCodeSent? <==> mailOk)
    ensures !(out.0.ResetCodeSent? || out.0.ResetSendFailed?) ==> out.1 == otps
    ensures out.2.Some? <==> out.0.ResetCodeSent?
    ensures out.2.Some? ==> out.2.value == Mail(ToLower(email.value), GenerateOtp(draw))
  {
    if !Present(email) then (ForgotMissingEmail, otps, None)
    else if !EmailTaken(users, EmailKey(email.value)) then (NoAccount, otps, None)
    else
      var code := GenerateOtp(draw);
      var stored := WithoutEmail(otps, EmailKey(email.value)) + [Issued(email.value, code, now)];
      if mailOk then (ResetCodeSent, stored, Some(Mail(ToLower(email.value), code)))
      else (ResetSendFailed, stored, None)
  }

  // ------------------------------------------------------- verify-otp

  datatype ForgotVerifyReply =
    | ForgotVerifyMissing
    | InvalidCode
    | CodeExpired
    | CodeAccepted
  {
    function Status(): int {
      match this
      case CodeAccepted => 200
      case _ => 400
    }
  }

  /** `POST /api/auth/forgot-password/verify-otp`: the first record for
      the address with this code is looked up whatever its expiry; if
      `now` is past the expiry that record is deleted and the code
      refused; otherwise the code is accepted and the record kept for the
      reset. */
  function ForgotVerifyOtp(email: Option<string>, code: Option<string>, otps: seq<OtpRecord>, now: Millis)
    : (out: (ForgotVerifyReply, seq<OtpRecord>))
    ensures out.0.ForgotVerifyMissing? <==> !Present(email) || !Present(code)
    ensures out.0.InvalidCode? <==>
              Present(email) && Present(code) && !AnyAccepts(otps, EmailKey(email.value), code.value, None)
    ensures out.0.CodeExpired? || out.0.CodeAccepted? ==>
              && Present(email) && Present(code)
              && var i := FirstMatch(otps, EmailKey(email.value), code.value, None).value;
              && i < |otps|
              && (out.0.CodeAccepted? <==> now <= otps[i].expiresAt)
              && (out.0.CodeExpired? ==> out.1 == RemoveAt(otps, i))
    ensures !out.0.CodeExpired? ==> out.1 == otps
  {
    if !Present(email) || !Present(code) then (ForgotVerifyMissing, otps)
    else
      var found := FirstMatch(otps, EmailKey(email.value), code.value, None);
      if found.None? then (InvalidCode, otps)
      else if now > otps[found.value].expiresAt then (CodeExpired, RemoveAt(otps, found.value))
      else (CodeAccepted, otps)
  }

  /** Acceptance does not consume the code: asking again with the same
      code at the same instant, or earlier, is accepted again. */
  lemma AcceptRepeats(email: Option<string>, code: Option<string>, otps: seq<OtpRecord>, now: Millis, earlier: Millis)
    requires ForgotVerifyOtp(email, code, otps, now).0.CodeAccepted?
    requires earlier <= now
    ensures ForgotVerifyOtp(email, code, ForgotVerifyOtp(email, code, otps, now).1, earlier).0.CodeAccepted?
  {
  }

  /** At the very instant of expiry the two verification routes disagree:
      the signup route's filter `expiresAt > now` refuses the code while
      this route's test `now > expiresAt` accepts it. */
  lemma ExpiryInstant(email: Option<string>, code: Option<string>, kept: seq<OtpRecord>, rec: OtpRecord)
    requires Present(email) && Present(code)
    requires rec.email == EmailKey(email.value) && rec.code == code.value
    requires forall x | x in kept :: x.email != rec.email
    ensures VerifyOtp(email, code, kept + [rec], rec.expiresAt).0.InvalidOrExpired?
    ensures ForgotVerifyOtp(email, code, kept + [rec], rec.expiresAt).0.CodeAccepted?
  {
    FirstMatchLast(kept, rec, code.value, Some(rec.expiresAt));
    FirstMatchLast(kept, rec, code.value, None);
    assert (kept + [rec])[|kept|] == rec;
  }

  // ------------------------------------------------------------ reset

  datatype ResetReply =
    | ResetMissing
    | ShortPassword
    | NotVerified
    | UserNotFound
    | PasswordChanged
  {
    function Status(): int {
      match this
      case UserNotFound => 404
      case PasswordChanged => 200
      case _ => 400
    }
  }

  /** A record for the address exists, whatever its code or expiry
      (`OTP.findOne({ email })`). */
  predicate HasRecord(otps: seq<OtpRecord>, key: string) {
    exists i | 0 <= i < |otps| :: otps[i].email == key
  }

  /** `POST /api/auth/forgot-password/reset` as written: the handler
      stores `bcrypt.hash(password)` in the document and saves it, and the
      `save` hook, seeing the password modified, hashes it a second time.
      On success every record for the address is deleted. */
  function ResetPassword(email: Option<string>, password: Option<string>, otps: seq<OtpRecord>, users: seq<User>)
    : (out: (ResetReply, seq<OtpRecord>, seq<User>))
    ensures out.0.ResetMissing? <==> !Present(email) || !Present(password)
    ensures out.0.ShortPassword? <==> Present(email) && Present(password) && JsLength(password.value) < MinPassword
    ensures out.0.NotVerified? <==>
              Present(email) && Present(password) && JsLength(password.value) >= MinPassword
              && !HasRecord(otps, EmailKey(email.value))
    ensures out.0.UserNotFound? <==>
              Present(email) && Present(password) && JsLength(password.value) >= MinPassword
              && HasRecord(otps, EmailKey(email.value)) && !EmailTaken(users, EmailKey(email.value))
    ensures !out.0.PasswordChanged? ==> out.1 == otps && out.2 == users
    ensures out.0.PasswordChanged? ==>
              && Present(email) && Present(password)
              && var i := FindByEmail(users, EmailKey(email.value)).value;
              && i < |users|
              && out.2 == users[i := users[i].(password := Digest(Digest(password.value)))]
              && out.1 == WithoutEmail(otps, EmailKey(email.value))
  {
    if !Present(email) || !Present(password) then (ResetMissing, otps, users)
    else if JsLength(password.value) < MinPassword then (ShortPassword, otps, users)
    else if !HasRecord(otps, EmailKey(email.value)) then (NotVerified, otps, users)
    else
      var found := FindByEmail(users, EmailKey(email.value));
      if found.None? then (UserNotFound, otps, users)
      else
        var i := found.value;
        var hashed := users[i].(password := Digest(password.value));
        (PasswordChanged, WithoutEmail(otps, EmailKey(email.value)), users[i := SaveHook(hashed, true)])
  }

  const MinPassword: nat := 6

  /** As written, the reset locks the account out: the stored value is a
      digest of the digest, which the new password does not match. */
  lemma ResetLocksOut(email: Option<string>, password: Option<string>, otps: seq<OtpRecord>, users: seq<User>)
    requires ResetPassword(email, password, otps, users).0.PasswordChanged?
    ensures var out := ResetPassword(email, password, otps, users);
            var i := FindByEmail(users, EmailKey(email.value)).value;
            !PasswordMatches(password.value, out.2[i].password)
  {
    var i := FindByEmail(users, EmailKey(email.value)).value;
    var d := Digest(password.value);
    assert |Digest(d)| != |Digest(password.value)|;
  }

  /** The store after a send for a registered address: the other
      addresses' records, then the new one. */
  lemma ForgotSentStore(email: Option<string>, draw: real, mailOk: bool, users: seq<User>,
                        otps: seq<OtpRecord>, now: Millis)
    requires 0.0 <= draw < 1.0
    requires Present(email) && EmailTaken(users, EmailKey(email.value))
    ensures var rec := Issued(email.value, GenerateOtp(draw), now);
            var kept := WithoutEmail(otps, EmailKey(email.value));
            && ForgotSendOtp(email, draw, mailOk, users, otps, now).1 == kept + [rec]
            && (forall x | x in kept :: x.email != rec.email)
            && rec.code != "" && rec.expiresAt == now + OtpLifetimeMs
  {
  }

  /** As written, the reset goes through for a registered address as
      soon as any record for it exists. */
  lemma ResetOnAnyRecord(email: Option<string>, password: string, kept: seq<OtpRecord>, rec: OtpRecord, users: seq<User>)
    requires Present(email) && EmailTaken(users, EmailKey(email.value))
    requires JsLength(password) >= MinPassword && rec.email == EmailKey(email.value)
    ensures ResetPassword(email, Some(password), kept + [rec], users).0.PasswordChanged?
  {
    var s := kept + [rec];
    assert s[|kept|] == rec;
    assert HasRecord(s, EmailKey(email.value));
    var out := ResetPassword(email, Some(password), s, users);
    assert !out.0.ResetMissing? && !out.0.ShortPassword?;
    assert !out.0.NotVerified? && !out.0.UserNotFound?;
  }

  /** As written, the reset never asks for the code: right after a code is
      sent for a registered address, anyone who names the address can
      choose its new password, without the code and without the
      verification step. */
  lemma ResetWithoutCode(email: Option<string>, draw: real, mailOk: bool, users: seq<User>,
                         otps: seq<OtpRecord>, now: Millis, password: string)
    requires 0.0 <= draw < 1.0
    requires Present(email) && EmailTaken(users, EmailKey(email.value))
    requires JsLength(password) >= MinPassword
    ensures var sent := ForgotSendOtp(email, draw, mailOk, users, otps, now).1;
            ResetPassword(email, Some(password), sent, users).0.PasswordChanged?
  {
    ForgotSentStore(email, draw, mailOk, users, otps, now);
    ResetOnAnyRecord(email, password, WithoutEmail(otps, EmailKey(email.value)),
                     Issued(email.value, GenerateOtp(draw), now), users);
  }

  /** Both resets count the new password in UTF-16 code units, as
      `.length` does: three emoji are six units, long enough for either. */
  lemma EmojiResetPasswordLongEnough(email: Option<string>, code: Option<string>,
                                     otps: seq<OtpRecord>, users: seq<User>, now: Millis)
    ensures !ResetPassword(email, Some("\U{1F600}\U{1F600}\U{1F600}"), otps, users).0.ShortPassword?
    ensures !ResetPasswordChecked(email, code, Some("\U{1F600}\U{1F600}\U{1F600}"), otps, users, now).0.ShortPassword?
  {
    ThreeEmojiHaveLengthSix();
  }

  // -------------------------------------------------- corrected reset

  /** The reset as the handler's own comment intends it, with the caller
      proven to have been through the code flow: the request carries the
      code, a record for the address with that code must exist and not
      have expired (the signup verify route's `expiresAt > now`), and the
      plain password is handed to the `save` hook, which hashes it once. */
  function ResetPasswordChecked(email: Option<string>, code: Option<string>, password: Option<string>,
                                otps: seq<OtpRecord>, users: seq<User>, now: Millis)
    : (out: (ResetReply, seq<OtpRecord>, seq<User>))
    ensures out.0.ResetMissing? <==> !Present(email) || !Present(password) || !Present(code)
    ensures out.0.PasswordChanged? <==>
              && Present(email) && Present(code) && Present(password) && JsLength(password.value) >= MinPassword
              && AnyAccepts(otps, EmailKey(email.value), code.value, Some(now))
              && EmailTaken(users, EmailKey(email.value))
    ensures !out.0.PasswordChanged? ==> out.1 == otps && out.2 == users
    ensures out.0.PasswordChanged? ==>
              var i := FindByEmail(users, EmailKey(email.value)).value;
              && i < |users|
              && out.2 == users[i := users[i].(password := Digest(password.value))]
              && out.1 == WithoutEmail(otps, EmailKey(email.value))
  {
    if !Present(email) || !Present(password) || !Present(code) then (ResetMissing, otps, users)
    else if JsLength(password.value) < MinPassword then (ShortPassword, otps, users)
    else if FirstMatch(otps, EmailKey(email.value), code.value, Some(now)).None? then (NotVerified, otps, users)
    else
      var found := FindByEmail(users, EmailKey(email.value));
      if found.None? then (UserNotFound, otps, users)
      else
        var i := found.value;
        var plain := users[i].(password := password.value);
        (PasswordChanged, WithoutEmail(otps, EmailKey(email.value)), users[i := SaveHook(plain, true)])
  }

  /** With the corrected reset the new password logs in to the account
      holding the address. */
  lemma CheckedResetLogsIn(email: Option<string>, code: Option<string>, password: Option<string>,
                           otps: seq<OtpRecord>, users: seq<User>, now: Millis)
    requires ResetPasswordChecked(email, code, password, otps, users, now).0.PasswordChanged?
    ensures var out := ResetPasswordChecked(email, code, password, otps, users, now);
            var i := FindByEmail(users, EmailKey(email.value)).value;
            PasswordMatches(password.value, out.2[i].password) && out.2[i].email == EmailKey(email.value)
  {
  }

  /** The corrected reset changes no account held by another address. */
  lemma CheckedResetTouchesOne(email: Option<string>, code: Option<string>, password: Option<string>,
                               otps: seq<OtpRecord>, users: seq<User>, now: Millis)
    requires ResetPasswordChecked(email, code, password, otps, users, now).0.PasswordChanged?
    ensures var out := ResetPasswordChecked(email, code, password, otps, users, now);
            && |out.2| == |users|
            && forall k | 0 <= k < |users| && users[k].email != EmailKey(email.value) :: out.2[k] == users[k]
  {
    var out := ResetPasswordChecked(email, code, password, otps, users, now);
    var key := EmailKey(email.value);
    var i := FindByEmail(users, key).value;
    assert users[i].email == key;
    forall k | 0 <= k < |users| && users[k].email != key
      ensures out.2[k] == users[k]
    {
      assert k != i;
    }
  }

  /** The corrected reset uses the code up: the address has no record
      left, so a second reset with it is refused. */
  lemma CheckedResetOnce(email: Option<string>, code: Option<string>, password: Option<string>,
                         otps: seq<OtpRecord>, users: seq<User>, now: Millis, password': Option<string>, later: Millis)
    requires ResetPasswordChecked(email, code, password, otps, users, now).0.PasswordChanged?
    ensures var out := ResetPasswordChecked(email, code, password, otps, users, now);
            !ResetPasswordChecked(email, code, password', out.1, out.2, later).0.PasswordChanged?
  {
    var rest := WithoutEmail(otps, EmailKey(email.value));
    forall k | 0 <= k < |rest|
      ensures !Accepts(rest[k], EmailKey(email.value), code.value, Some(later))
    {
      assert rest[k] in rest;
    }
  }

  /** On a store whose only record for the address is the last one, the
      corrected reset goes through exactly with that record's code before
      its expiry. */
  lemma CheckedResetOnLast(email: Option<string>, code: string, password: string,
                           kept: seq<OtpRecord>, rec: OtpRecord, users: seq<User>, now: Millis)
    requires Present(email) && EmailTaken(users, EmailKey(email.value))
    requires JsLength(password) >= MinPassword && code != ""
    requires rec.email == EmailKey(email.value)
    requires forall x | x in kept :: x.email != rec.email
    ensures ResetPasswordChecked(email, Some(code), Some(password), kept + [rec], users, now).0.PasswordChanged?
            <==> code == rec.code && rec.expiresAt > now
  {
    var s := kept + [rec];
    var key := EmailKey(email.value);
    FirstMatchLast(kept, rec, code, Some(now));
    assert FirstMatch(s, key, code, Some(now)).Some? <==> code == rec.code && rec.expiresAt > now;
    CheckedResetGate(email, code, password, s, users, now);
  }

  /** For a registered address, a long enough password and a non-empty
      code, the corrected reset goes through exactly when a record accepts
      the code. */
  lemma CheckedResetGate(email: Option<string>, code: string, password: string,
                         otps: seq<OtpRecord>, users: seq<User>, now: Millis)
    requires Present(email) && FindByEmail(users, EmailKey(email.value)).Some?
    requires JsLength(password) >= MinPassword && code != ""
    ensures ResetPasswordChecked(email, Some(code), Some(password), otps, users, now).0.PasswordChanged?
            <==> FirstMatch(otps, EmailKey(email.value), code, Some(now)).Some?
  {
    if FirstMatch(otps, EmailKey(email.value), code, Some(now)).Some? {
      CheckedResetGoes(email, code, password, otps, users, now);
    } else {
      CheckedResetStops(email, code, password, otps, users, now);
    }
  }

  lemma CheckedResetGoes(email: Option<string>, code: string, password: string,
                         otps: seq<OtpRecord>, users: seq<User>, now: Millis)
    requires Present(email) && FindByEmail(users, EmailKey(email.value)).Some?
    requires JsLength(password) >= MinPassword && code != ""
    requires FirstMatch(otps, EmailKey(email.value), code, Some(now)).Some?
    ensures ResetPasswordChecked(email, Some(code), Some(password), otps, users, now).0.PasswordChanged?
  {
  }

  lemma CheckedResetStops(email: Option<string>, code: string, password: string,
                          otps: seq<OtpRecord>, users: seq<User>, now: Millis)
    requires Present(email)
    requires FirstMatch(otps, EmailKey(email.value), code, Some(now)).None?
    ensures !ResetPasswordChecked(email, Some(code), Some(password), otps, users, now).0.PasswordChanged?
  {
  }

  /** After a code is sent for a registered address, the corrected reset
      succeeds with that code until it expires and is refused with any
      other code. */
  lemma CheckedResetNeedsCode(email: Option<string>, draw: real, mailOk: bool, users: seq<User>,
                              otps: seq<OtpRecord>, now: Millis, code': string, password: string, later: Millis)
    requires 0.0 <= draw < 1.0
    requires Present(email) && EmailTaken(users, EmailKey(email.value))
    requires JsLength(password) >= MinPassword && code' != ""
    ensures var sent := ForgotSendOtp(email, draw, mailOk, users, otps, now).1;
            ResetPasswordChecked(email, Some(code'), Some(password), sent, users, later).0.PasswordChanged?
            <==> code' == GenerateOtp(draw) && later < now + OtpLifetimeMs
  {
    ForgotSentStore(email, draw, mailOk, users, otps, now);
    CheckedResetOnLast(email, code', password, WithoutEmail(otps, EmailKey(email.value)),
                       Issued(email.value, GenerateOtp(draw), now), users, later);
  }
}
