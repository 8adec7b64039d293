/** One-time codes for email verification at signup: code generation,
    `POST /api/auth/send-otp` and `POST /api/auth/verify-otp`, over the OTP
    collection (a sequence of records in natural order). */
module Otp {
  import opened Common
  import opened Strings
  import opened Models

  /** A code lives ten minutes. */
  const OtpLifetimeMs: int := 10 * MsPerMinute

  // ----------------------------------------------------------- generator

  /** `Math.floor(100000 + Math.random() * 900000).toString()`, for the
      value `draw` that `Math.random()` returned. */
  function GenerateOtp(draw: real): (code: string)
    requires 0.0 <= draw < 1.0
    ensures |code| == 6 && AllDigits(code) && code[0] != '0'
    ensures 100000 <= DecimalValue(code) <= 999999
    ensures DecimalValue(code) == (100000.0 + draw * 900000.0).Floor
  {
    var n := (100000.0 + draw * 900000.0).Floor;
    assert 100000 <= n < 1000000;
    assert Pow10(5) == 100000 && Pow10(6) == 1000000;
    NatToStringLength(n, 6);
    NatToString(n)
  }

  // --------------------------------------------------------------- store

  /** Records for the normalised address `key`, in store order. */
  function ForEmail(otps: seq<OtpRecord>, key: string): (r: seq<OtpRecord>)
    ensures |r| <= |otps|
    ensures forall x | x in r :: x in otps && x.email == key
    ensures forall x | x in otps && x.email == key :: x in r
  {
    if |otps| == 0 then []
    else (if otps[0].email == key then [otps[0]] else []) + ForEmail(otps[1..], key)
  }

  /** `OTP.deleteMany({ email: key })`. */
  function WithoutEmail(otps: seq<OtpRecord>, key: string): (r: seq<OtpRecord>)
    ensures |r| <= |otps|
    ensures forall x | x in r :: x in otps && x.email != key
    ensures forall x | x in otps && x.email != key :: x in r
  {
    if |otps| == 0 then []
    else (if otps[0].email != key then [otps[0]] else []) + WithoutEmail(otps[1..], key)
  }

  /** Removing one address's records leaves every other address's records,
      in order, and none of its own. */
  lemma {:induction false} ForEmailAfterDelete(otps: seq<OtpRecord>, key: string, e: string)
    ensures ForEmail(WithoutEmail(otps, key), e) == if e == key then [] else ForEmail(otps, e)
  {
    if |otps| > 0 {
      ForEmailAfterDelete(otps[1..], key, e);
      var head := if otps[0].email != key then [otps[0]] else [];
      ForEmailAppend(head, WithoutEmail(otps[1..], key), e);
      assert ForEmail(head, e) == (if otps[0].email != key && otps[0].email == e then [otps[0]] else []) by {
        if head != [] {
          assert head[1..] == [];
        }
      }
    }
  }

  lemma {:induction false} ForEmailAppend(a: seq<OtpRecord>, b: seq<OtpRecord>, e: string)
    ensures ForEmail(a + b, e) == ForEmail(a, e) + ForEmail(b, e)
  {
    if |a| > 0 {
      assert (a + b)[1..] == a[1..] + b;
      ForEmailAppend(a[1..], b, e);
    } else {
      assert a + b == b;
    }
  }

  /** The record a `findOne` filter on address, code and, when `after` is
      given, `expiresAt > after`, accepts. */
  predicate Accepts(x: OtpRecord, key: string, code: string, after: Option<Millis>) {
    x.email == key && x.code == code && (after.Some? ==> x.expiresAt > after.value)
  }

  /** Some record in the store is accepted by the filter. */
  predicate AnyAccepts(otps: seq<OtpRecord>, key: string, code: string, after: Option<Millis>) {
    exists i | 0 <= i < |otps| :: Accepts(otps[i], key, code, after)
  }

  /** `OTP.findOne(filter)`: the position of the first record the filter
      accepts, in natural order. */
  function FirstMatch(otps: seq<OtpRecord>, key: string, code: string, after: Option<Millis>): (r: Option<nat>)
    ensures r.None? <==> !AnyAccepts(otps, key, code, after)
    ensures r.Some? ==> r.value < |otps| && Accepts(otps[r.value], key, code, after)
    ensures r.Some? ==> forall i | 0 <= i < r.value :: !Accepts(otps[i], key, code, after)
  {
    if |otps| == 0 then None
    else if Accepts(otps[0], key, code, after) then Some(0)
    else
      var rest := FirstMatch(otps[1..], key, code, after);
      if rest.None? then
        assert forall i | 1 <= i < |otps| :: otps[i] == otps[1..][i - 1];
        None
      else
        assert forall i | 1 <= i < rest.value + 1 :: otps[i] == otps[1..][i - 1];
        Some(rest.value + 1)
  }

  /** `OTP.deleteOne({ _id })` for the record at position `i`. */
  function RemoveAt(otps: seq<OtpRecord>, i: nat): (r: seq<OtpRecord>)
    requires i < |otps|
    ensures |r| == |otps| - 1
    ensures forall k | 0 <= k < i :: r[k] == otps[k]
    ensures forall k | i <= k < |r| :: r[k] == otps[k + 1]
  {
    otps[..i] + otps[i + 1..]
  }

  /** The message handed to the mail transport. */
  datatype Mail = Mail(to: string, code: string)

  /** The record a send stores: normalised address, code, creation instant
      and an expiry ten minutes later. */
  function Issued(email: string, code: string, now: Millis): (r: OtpRecord)
    ensures r.email == EmailKey(email) && r.code == code
    ensures r.createdAt == now && r.expiresAt == now + OtpLifetimeMs
  {
    ToLowerIdempotent(email);
    NewOtp(ToLower(email), code, now, now + OtpLifetimeMs)
  }

  // ------------------------------------------------------------ send-otp

  datatype SendReply =
    | SendMissingEmail
    | BadEmail
    | AlreadyRegistered
    | OtpSent
    | SendFailed
  {
    function Status(): int {
      match this
      case AlreadyRegistered => 409
      case OtpSent => 200
      case SendFailed => 500
      case _ => 400
    }
  }

  /** `POST /api/auth/send-otp`.  `draw` is what `Math.random()` returned
      and `mailOk` whether the mail transport accepted the message; when
      it did not, the reply is 500 but the new code is already stored. */
  function SendOtp(email: Option<string>, draw: real, mailOk: bool, users: seq<User>,
                   otps: seq<OtpRecord>, now: Millis): (out: (SendReply, seq<OtpRecord>, Option<Mail>))
    requires 0.0 <= draw < 1.0
    ensures out.0.SendMissingEmail? <==> !Present(email)
    ensures out.0.BadEmail? <==> Present(email) && !MatchesEmailPattern(email.value)
    ensures out.0.AlreadyRegistered? <==>
              Present(email) && MatchesEmailPattern(email.value) && EmailTaken(users, EmailKey(email.value))
    ensures out.0.OtpSent? || out.0.SendFailed? <==>
              Present(email) && MatchesEmailPattern(email.value) && !EmailTaken(users, EmailKey(email.value))
    ensures out.0.OtpSent? || out.0.SendFailed? ==>
              && out.1 == WithoutEmail(otps, EmailKey(email.value)) + [Issued(email.value, GenerateOtp(draw), now)]
              && (out.0.OtpSent? <==> mailOk)
    ensures !(out.0.OtpSent? || out.0.SendFailed?) ==> out.1 == otps
    ensures out.2.Some? <==> out.0.OtpSent?
    ensures out.2.Some? ==> out.2.value == Mail(email.value, GenerateOtp(draw))
  {
    if !Present(email) then (SendMissingEmail, otps, None)
    else if !MatchesEmailPattern(email.value) then (BadEmail, otps, None)
    else if EmailTaken(users, EmailKey(email.value)) then (AlreadyRegistered, otps, None)
    else
      var code := GenerateOtp(draw);
      var stored := WithoutEmail(otps, EmailKey(email.value)) + [Issued(email.value, code, now)];
      if mailOk then (OtpSent, stored, Some(Mail(email.value, code)))
      else (SendFailed, stored, None)
  }

  /** After a send that gets past the checks, the address has exactly one
      record — the new code, expiring in ten minutes — and every other
      address's records are as they were. */
  lemma SendLeavesOne(email: Option<string>, draw: real, mailOk: bool, users: seq<User>,
                      otps: seq<OtpRecord>, now: Millis, e: string)
    requires 0.0 <= draw < 1.0
    requires SendOtp(email, draw, mailOk, users, otps, now).0.OtpSent?
             || SendOtp(email, draw, mailOk, users, otps, now).0.SendFailed?
    ensures var key := EmailKey(email.value);
            var after := SendOtp(email, draw, mailOk, users, otps, now).1;
            && ForEmail(after, key) == [Issued(email.value, GenerateOtp(draw), now)]
            && (e != key ==> ForEmail(after, e) == ForEmail(otps, e))
  {
    var key := EmailKey(email.value);
    var rec := Issued(email.value, GenerateOtp(draw), now);
    var kept := WithoutEmail(otps, key);
    ForEmailAppend(kept, [rec], key);
    ForEmailAppend(kept, [rec], e);
    ForEmailAfterDelete(otps, key, key);
    ForEmailAfterDelete(otps, key, e);
    assert ForEmail([rec], key) == [rec] by {
      assert [rec][1..] == [];
    }
    assert ForEmail([rec], e) == (if e == key then [rec] else []) by {
      assert [rec][1..] == [];
    }
  }

  // ---------------------------------------------------------- verify-otp

  datatype VerifyReply =
    | VerifyMissing
    | InvalidOrExpired
    | Verified
  {
    function Status(): int {
      match this
      case Verified => 200
      case _ => 400
    }
  }

  /** `POST /api/auth/verify-otp`: the first record for the address with
      this code that expires strictly after `now` is consumed. */
  function VerifyOtp(email: Option<string>, code: Option<string>, otps: seq<OtpRecord>, now: Millis)
    : (out: (VerifyReply, seq<OtpRecord>))
    ensures out.0.VerifyMissing? <==> !Present(email) || !Present(code)
    ensures out.0.Verified? <==>
              Present(email) && Present(code) && AnyAccepts(otps, EmailKey(email.value), code.value, Some(now))
    ensures !out.0.Verified? ==> out.1 == otps
    ensures out.0.Verified? ==>
              var i := FirstMatch(otps, EmailKey(email.value), code.value, Some(now)).value;
              i < |otps| && out.1 == RemoveAt(otps, i)
  {
    if !Present(email) || !Present(code) then (VerifyMissing, otps)
    else
      var found := FirstMatch(otps, EmailKey(email.value), code.value, Some(now));
      if found.None? then (InvalidOrExpired, otps)
      else (Verified, RemoveAt(otps, found.value))
  }

  /** Verification against a store holding no record for the address
      fails and changes nothing. */
  lemma VerifyWithoutRecord(email: Option<string>, code: Option<string>, otps: seq<OtpRecord>, now: Millis)
    requires Present(email) && Present(code)
    requires forall x | x in otps :: x.email != EmailKey(email.value)
    ensures VerifyOtp(email, code, otps, now) == (InvalidOrExpired, otps)
  {
    assert forall i | 0 <= i < |otps| :: otps[i] in otps;
  }

  /** In a store whose only record for `rec.email` is the last one, a
      lookup on that address finds that record or nothing. */
  lemma FirstMatchLast(kept: seq<OtpRecord>, rec: OtpRecord, code: string, after: Option<Millis>)
    requires forall x | x in kept :: x.email != rec.email
    ensures FirstMatch(kept + [rec], rec.email, code, after)
            == if Accepts(rec, rec.email, code, after) then Some(|kept|) else None
  {
    var s := kept + [rec];
    forall i | 0 <= i < |kept|
      ensures !Accepts(s[i], rec.email, code, after)
    {
      assert s[i] == kept[i] && kept[i] in kept;
    }
    assert s[|kept|] == rec;
  }

  /** Verification against a store whose only record for the address is
      the last one succeeds exactly for that record's code before its
      expiry, and then removes just that record. */
  lemma VerifyLastRecord(email: Option<string>, code: string, kept: seq<OtpRecord>, rec: OtpRecord, now: Millis)
    requires Present(email) && code != ""
    requires rec.email == EmailKey(email.value)
    requires forall x | x in kept :: x.email != rec.email
    ensures var out := VerifyOtp(email, Some(code), kept + [rec], now);
            && (out.0.Verified? <==> code == rec.code && rec.expiresAt > now)
            && (out.0.Verified? ==> out.1 == kept)
  {
    FirstMatchLast(kept, rec, code, Some(now));
    var s := kept + [rec];
    assert s[..|kept|] == kept && s[|kept| + 1..] == [];
    assert RemoveAt(s, |kept|) == kept;
  }

  /** The store after a successful send: the other addresses' records,
      then the new one. */
  lemma SentStore(email: Option<string>, draw: real, mailOk: bool, users: seq<User>,
                  otps: seq<OtpRecord>, now: Millis)
    requires 0.0 <= draw < 1.0
    requires SendOtp(email, draw, mailOk, users, otps, now).0.OtpSent?
    ensures var rec := Issued(email.value, GenerateOtp(draw), now);
            var kept := WithoutEmail(otps, EmailKey(email.value));
            && SendOtp(email, draw, mailOk, users, otps, now).1 == kept + [rec]
            && (forall x | x in kept :: x.email != rec.email)
            && rec.code != "" && rec.expiresAt == now + OtpLifetimeMs
  {
  }

  /** A code sent for an address verifies, for any spelling of the address
      with the same normal form, exactly until it expires; a wrong code is
      refused. */
  lemma SendThenVerify(email: Option<string>, draw: real, mailOk: bool, users: seq<User>,
                       otps: seq<OtpRecord>, now: Millis, email': Option<string>, code': string, later: Millis)
    requires 0.0 <= draw < 1.0
    requires SendOtp(email, draw, mailOk, users, otps, now).0.OtpSent?
    requires Present(email') && EmailKey(email'.value) == EmailKey(email.value)
    requires code' != ""
    ensures var sent := SendOtp(email, draw, mailOk, users, otps, now).1;
            var out := VerifyOtp(email', Some(code'), sent, later);
            out.0.Verified? <==> code' == GenerateOtp(draw) && later < now + OtpLifetimeMs
  {
    SentStore(email, draw, mailOk, users, otps, now);
    VerifyLastRecord(email', code', WithoutEmail(otps, EmailKey(email.value)),
                     Issued(email.value, GenerateOtp(draw), now), later);
  }

  /** A code verifies at most once: the successful verification removes
      the address's only record, so a repeat is refused. */
  lemma SendThenVerifyOnce(email: Option<string>, draw: real, mailOk: bool, users: seq<User>,
                           otps: seq<OtpRecord>, now: Millis, email': Option<string>, later: Millis, later': Millis)
    requires 0.0 <= draw < 1.0
    requires SendOtp(email, draw, mailOk, users, otps, now).0.OtpSent?
    requires Present(email') && EmailKey(email'.value) == EmailKey(email.value)
    ensures var sent := SendOtp(email, draw, mailOk, users, otps, now).1;
            var first := VerifyOtp(email', Some(GenerateOtp(draw)), sent, later);
            first.0.Verified? ==> VerifyOtp(email', Some(GenerateOtp(draw)), first.1, later').0.InvalidOrExpired?
  {
    var kept := WithoutEmail(otps, EmailKey(email.value));
    SentStore(email, draw, mailOk, users, otps, now);
    VerifyLastRecord(email', GenerateOtp(draw), kept, Issued(email.value, GenerateOtp(draw), now), later);
    VerifyWithoutRecord(email', Some(GenerateOtp(draw)), kept, later');
  }
}
