/** Account creation (`POST /api/auth/signup`) and the email availability
    check (`GET /api/auth/signup`).  Neither consults the OTP store. */
module Accounts {
  import opened Common
  import opened Strings
  import opened Models

  const MinPasswordLength: nat := 6
  const MaxSignupsPerIpPerDay: nat := 3

  // ---------------------------------------------------------------- phone

  /** `s.slice(-10)`: the last ten characters, or all of a shorter string. */
  function Last10(s: string): (r: string)
    ensures |r| == Min(|s|, 10)
    ensures r == s[|s| - |r|..]
  {
    if |s| <= 10 then s else s[|s| - 10..]
  }

  /** The stored form of a phone number: its digits, last ten kept. */
  function NormalPhone(phone: string): (r: string)
    ensures AllDigits(r) && |r| <= 10
  {
    Last10(DigitsOnly(phone))
  }

  /** `/^[6-9]\d{9}$/`. */
  predicate IndianMobile(s: string) {
    |s| == 10 && '6' <= s[0] <= '9' && AllDigits(s)
  }

  /** Whatever precedes the last ten digits — a country code, spaces,
      dashes — is dropped: `+91 ` followed by a mobile number stores as
      that number. */
  lemma {:induction false} PrefixIgnored(prefix: string, digits: string)
    requires AllDigits(digits) && |digits| == 10
    ensures NormalPhone(prefix + digits) == digits
  {
    DigitsOnlyAppend(prefix, digits);
    DigitsOnlyOfDigits(digits);
    var d := DigitsOnly(prefix) + digits;
    assert d[|d| - 10..] == digits;
  }

  /** Normalising twice is normalising once. */
  lemma {:induction false} NormalPhoneIdempotent(phone: string)
    ensures NormalPhone(NormalPhone(phone)) == NormalPhone(phone)
  {
    DigitsOnlyOfDigits(NormalPhone(phone));
  }

  // --------------------------------------------------------- rate limit

  /** Accounts created from `ip` during the day before `now`
      (`createdAt >= now - 24h`). */
  function RecentFromIp(users: seq<User>, ip: string, now: Millis): (n: nat)
    ensures n <= |users|
  {
    if |users| == 0 then 0
    else
      var u := users[|users| - 1];
      RecentFromIp(users[..|users| - 1], ip, now)
      + (if u.signupIP == Some(ip) && u.createdAt >= now - MsPerDay then 1 else 0)
  }

  /** The day's limit for the signup's address has been reached; a
      request without an address is never limited (`if (signupIP)`). */
  predicate OverLimit(users: seq<User>, signupIP: Option<string>, now: Millis) {
    Present(signupIP) && RecentFromIp(users, signupIP.value, now) >= MaxSignupsPerIpPerDay
  }

  // -------------------------------------------------------------- signup

  datatype SignupReply =
    | SignupMissingField
    | WeakPassword
    | BadPhone
    | EmailRegistered
    | TooManySignups
    | SignupFailed
    | AccountCreated(user: User)
  {
    function Status(): int {
      match this
      case EmailRegistered => 409
      case TooManySignups => 429
      case SignupFailed => 500
      case AccountCreated(_) => 201
      case _ => 400
    }
  }

  /** `displayName?.trim() || undefined`. */
  function NormalName(displayName: Option<string>): (r: Option<string>)
    ensures r.Some? <==> displayName.Some? && Trim(displayName.value) != ""
    ensures r.Some? ==> r.value == Trim(displayName.value)
  {
    if displayName.Some? && Trim(displayName.value) != "" then Some(Trim(displayName.value)) else None
  }

  /** The document the handler builds, as the `save` hook writes it: a
      new document's password counts as modified, so it is stored hashed. */
  function Account(id: UserId, email: string, password: string, phone: string, displayName: Option<string>,
                   signupIP: Option<string>, signupCoords: Option<Coords>, now: Millis): User {
    SaveHook(NewUser(id, ToLower(email), password, NormalPhone(phone), NormalName(displayName), signupIP, signupCoords, now), true)
  }

  /** The schema's validation of the built document on save: the stored
      email has the X@Y.Z shape and the display name fits in 30 UTF-16 code
      units, Mongoose's `maxlength` comparing `.length`. */
  predicate SaveAccepts(email: string, displayName: Option<string>) {
    && MatchesEmailPattern(EmailKey(email))
    && (NormalName(displayName).Some? ==> JsLength(NormalName(displayName).value) <= 30)
  }

  /** The refusals of `POST /api/auth/signup`, checked in the handler's
      order; `None` lets the request through to the insert. */
  function SignupRefusal(email: Option<string>, password: Option<string>, phone: Option<string>,
                         signupIP: Option<string>, users: seq<User>, now: Millis): (r: Option<SignupReply>)
    ensures r.Some? ==> !r.value.AccountCreated? && !r.value.SignupFailed?
    ensures r == Some(SignupMissingField) <==> !(Present(email) && Present(password) && Present(phone))
    ensures r == Some(WeakPassword) <==>
              Present(email) && Present(password) && Present(phone) && JsLength(password.value) < MinPasswordLength
    ensures r == Some(BadPhone) <==>
              Present(email) && Present(password) && Present(phone) && JsLength(password.value) >= MinPasswordLength
              && !IndianMobile(NormalPhone(phone.value))
    ensures r == Some(EmailRegistered) <==>
              Present(email) && Present(password) && Present(phone) && JsLength(password.value) >= MinPasswordLength
              && IndianMobile(NormalPhone(phone.value)) && EmailTaken(users, EmailKey(email.value))
    ensures r == Some(TooManySignups) <==>
              Present(email) && Present(password) && Present(phone) && JsLength(password.value) >= MinPasswordLength
              && IndianMobile(NormalPhone(phone.value)) && !EmailTaken(users, EmailKey(email.value))
              && OverLimit(users, signupIP, now)
    ensures r.None? <==>
              Present(email) && Present(password) && Present(phone) && JsLength(password.value) >= MinPasswordLength
              && IndianMobile(NormalPhone(phone.value)) && !EmailTaken(users, EmailKey(email.value))
              && !OverLimit(users, signupIP, now)
  {
    if !Present(email) || !Present(password) || !Present(phone) then Some(SignupMissingField)
    else if JsLength(password.value) < MinPasswordLength then Some(WeakPassword)
    else if !IndianMobile(NormalPhone(phone.value)) then Some(BadPhone)
    else if EmailTaken(users, EmailKey(email.value)) then Some(EmailRegistered)
    else if OverLimit(users, signupIP, now) then Some(TooManySignups)
    else None
  }

  /** `POST /api/auth/signup`; `id` is the identifier the database assigns.
      A request past every refusal is inserted when the schema accepts the
      document, and answers 500 otherwise. */
  function Signup(email: Option<string>, password: Option<string>, phone: Option<string>,
                  displayName: Option<string>, signupIP: Option<string>, signupCoords: Option<Coords>,
                  users: seq<User>, id: UserId, now: Millis): (out: (SignupReply, seq<User>))
    ensures !out.0.AccountCreated? ==> out.1 == users
    ensures SignupRefusal(email, password, phone, signupIP, users, now).Some? ==>
              out.0 == SignupRefusal(email, password, phone, signupIP, users, now).value
    ensures out.0.SignupFailed? <==>
              SignupRefusal(email, password, phone, signupIP, users, now).None? && !SaveAccepts(email.value, displayName)
    ensures out.0.AccountCreated? <==>
              SignupRefusal(email, password, phone, signupIP, users, now).None? && SaveAccepts(email.value, displayName)
    ensures out.0.AccountCreated? ==>
              && out.0.user == Account(id, email.value, password.value, phone.value, displayName, signupIP, signupCoords, now)
              && out.1 == users + [out.0.user]
  {
    var refusal := SignupRefusal(email, password, phone, signupIP, users, now);
    if refusal.Some? then (refusal.value, users)
    else if !SaveAccepts(email.value, displayName) then (SignupFailed, users)
    else
      var u := Account(id, email.value, password.value, phone.value, displayName, signupIP, signupCoords, now);
      (AccountCreated(u), users + [u])
  }

  /** A normalised phone number has nothing for `trim` to remove. */
  lemma PhoneTrimmed(phone: string)
    ensures Trim(NormalPhone(phone)) == NormalPhone(phone)
  {
    var p := NormalPhone(phone);
    forall i | 0 <= i < |p|
      ensures !IsSpace(p[i])
    {
      assert IsDigit(p[i]);
    }
    TrimOfNoSpace(p);
  }

  /** A normalised display name has nothing for `trim` to remove. */
  lemma NameTrimmed(displayName: Option<string>)
    ensures NormalName(displayName).Some? ==> Trim(NormalName(displayName).value) == NormalName(displayName).value
  {
    if NormalName(displayName).Some? {
      TrimOfTrimmed(NormalName(displayName).value);
    }
  }

  /** The fields of the built document. */
  lemma AccountFields(id: UserId, email: string, password: string, phone: string, displayName: Option<string>,
                      signupIP: Option<string>, signupCoords: Option<Coords>, now: Millis)
    ensures var u := Account(id, email, password, phone, displayName, signupIP, signupCoords, now);
            && u.email == EmailKey(email) && PasswordMatches(password, u.password) && u.phoneNumber == NormalPhone(phone)
            && u.displayName == NormalName(displayName) && u.signupIP == signupIP && u.createdAt == now
  {
    ToLowerIdempotent(email);
    PhoneTrimmed(phone);
    NameTrimmed(displayName);
  }

  /** The built document is one the schema accepts, holding the stored
      email normal form and a ten-digit mobile number. */
  lemma AccountIsValid(id: UserId, email: string, password: string, phone: string, displayName: Option<string>,
                       signupIP: Option<string>, signupCoords: Option<Coords>, now: Millis)
    requires JsLength(password) >= MinPasswordLength && IndianMobile(NormalPhone(phone))
    requires SaveAccepts(email, displayName)
    ensures var u := Account(id, email, password, phone, displayName, signupIP, signupCoords, now);
            && UserDocValid(u) && u.email == EmailKey(email) && IndianMobile(u.phoneNumber)
  {
    AccountFields(id, email, password, phone, displayName, signupIP, signupCoords, now);
    EmailKeyNormal(email);
    PhoneTrimmed(phone);
    NameTrimmed(displayName);
  }

  /** A successful signup keeps emails unique and stores a valid document
      with every default, against which the chosen password logs in. */
  lemma CreatedAccount(email: Option<string>, password: Option<string>, phone: Option<string>,
                       displayName: Option<string>, signupIP: Option<string>, signupCoords: Option<Coords>,
                       users: seq<User>, id: UserId, now: Millis)
    requires UniqueEmails(users)
    requires Signup(email, password, phone, displayName, signupIP, signupCoords, users, id, now).0.AccountCreated?
    ensures var out := Signup(email, password, phone, displayName, signupIP, signupCoords, users, id, now);
            && UserDocValid(out.0.user) && HasUserDefaults(out.0.user)
            && out.0.user.email == EmailKey(email.value) && IndianMobile(out.0.user.phoneNumber)
            && PasswordMatches(password.value, out.0.user.password)
            && UniqueEmails(out.1)
  {
    var out := Signup(email, password, phone, displayName, signupIP, signupCoords, users, id, now);
    var u := out.0.user;
    AccountIsValid(id, email.value, password.value, phone.value, displayName, signupIP, signupCoords, now);
    AccountFields(id, email.value, password.value, phone.value, displayName, signupIP, signupCoords, now);
    assert !EmailTaken(users, EmailKey(email.value));
    var r := out.1;
    assert r == users + [u];
    forall i, j | 0 <= i < j < |r|
      ensures r[i].email != r[j].email
    {
      if j == |users| {
        assert r[i] == users[i];
      } else {
        assert r[i] == users[i] && r[j] == users[j];
      }
    }
  }

  /** Once an address has an account, a later signup with it, in any
      letter case and with any surrounding white space, never creates a
      second one: it is refused with 409 once it passes the earlier checks. */
  lemma NoSecondAccount(email: Option<string>, password: Option<string>, phone: Option<string>,
                        displayName: Option<string>, signupIP: Option<string>, signupCoords: Option<Coords>,
                        users: seq<User>, id: UserId, now: Millis,
                        email': Option<string>, password': Option<string>, phone': Option<string>,
                        displayName': Option<string>, signupIP': Option<string>, signupCoords': Option<Coords>,
                        id': UserId, later: Millis)
    requires Signup(email, password, phone, displayName, signupIP, signupCoords, users, id, now).0.AccountCreated?
    requires Present(email') && EmailKey(email'.value) == EmailKey(email.value)
    ensures var users' := Signup(email, password, phone, displayName, signupIP, signupCoords, users, id, now).1;
            var out := Signup(email', password', phone', displayName', signupIP', signupCoords', users', id', later);
            && !out.0.AccountCreated?
            && ((Present(password') && Present(phone') && JsLength(password'.value) >= MinPasswordLength
                 && IndianMobile(NormalPhone(phone'.value)))
                ==> out.0.EmailRegistered?)
  {
    var first := Signup(email, password, phone, displayName, signupIP, signupCoords, users, id, now);
    var u := first.0.user;
    assert u.email == EmailKey(email.value) by {
      ToLowerIdempotent(email.value);
    }
    assert first.1[|users|] == u;
    assert EmailTaken(first.1, EmailKey(email'.value));
  }

  /** Appending one user adds one to an address's count exactly when that
      user signed up from the address within the day. */
  lemma RecentAppend(users: seq<User>, u: User, ip: string, now: Millis)
    ensures RecentFromIp(users + [u], ip, now)
            == RecentFromIp(users, ip, now) + (if u.signupIP == Some(ip) && u.createdAt >= now - MsPerDay then 1 else 0)
  {
    assert (users + [u])[..|users|] == users;
  }

  /** Each account created from an address adds one to that address's
      count for the day, and a signup is refused once the count reaches
      three, so the count never passes three. */
  lemma RateLimit(email: Option<string>, password: Option<string>, phone: Option<string>,
                  displayName: Option<string>, ip: string, signupCoords: Option<Coords>,
                  users: seq<User>, id: UserId, now: Millis)
    requires ip != ""
    requires RecentFromIp(users, ip, now) <= MaxSignupsPerIpPerDay
    ensures var out := Signup(email, password, phone, displayName, Some(ip), signupCoords, users, id, now);
            && RecentFromIp(out.1, ip, now) <= MaxSignupsPerIpPerDay
            && (out.0.AccountCreated? ==> RecentFromIp(out.1, ip, now) == RecentFromIp(users, ip, now) + 1)
            && (RecentFromIp(users, ip, now) == MaxSignupsPerIpPerDay ==> !out.0.AccountCreated?)
  {
    var out := Signup(email, password, phone, displayName, Some(ip), signupCoords, users, id, now);
    if out.0.AccountCreated? {
      AccountFields(id, email.value, password.value, phone.value, displayName, Some(ip), signupCoords, now);
      RecentAppend(users, out.0.user, ip, now);
    }
  }

  // -------------------------------------------------------- availability

  /** The length rule counts UTF-16 code units: three emoji are six units
      and pass it, while three ASCII letters are refused. */
  lemma EmojiPasswordLongEnough(email: Option<string>, phone: Option<string>, signupIP: Option<string>,
                                users: seq<User>, now: Millis)
    ensures SignupRefusal(email, Some("\U{1F600}\U{1F600}\U{1F600}"), phone, signupIP, users, now) != Some(WeakPassword)
    ensures SignupRefusal(email, Some("abc"), phone, signupIP, users, now) == Some(WeakPassword) <==>
              Present(email) && Present(phone)
  {
    ThreeEmojiHaveLengthSix();
    assert JsLength("abc") == 3;
  }

  /** So does the display-name limit: fifteen emoji fit in its 30 units,
      sixteen do not, and the save fails. */
  lemma EmojiNameLimit(email: string)
    ensures SaveAccepts(email, Some(seq(15, _ => '\U{1F600}'))) <==> MatchesEmailPattern(EmailKey(email))
    ensures !SaveAccepts(email, Some(seq(16, _ => '\U{1F600}')))
  {
    var short, long := seq(15, _ => '\U{1F600}'), seq(16, _ => '\U{1F600}');
    TrimOfNoSpace(short);
    TrimOfNoSpace(long);
    assert short[0] == '\U{1F600}' && long[0] == '\U{1F600}';
    JsLengthRepeat('\U{1F600}', 15);
    JsLengthRepeat('\U{1F600}', 16);
  }

  /** `GET /api/auth/signup?email=`: `None` is the 400 for a missing
      address; otherwise whether no account holds it. */
  function EmailAvailable(email: Option<string>, users: seq<User>): (r: Option<bool>)
    ensures r.None? <==> !Present(email)
    ensures r.Some? ==> (r.value <==> forall i | 0 <= i < |users| :: users[i].email != EmailKey(email.value))
  {
    if !Present(email) then None else Some(!EmailTaken(users, EmailKey(email.value)))
  }
}
