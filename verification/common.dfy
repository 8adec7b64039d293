/** Shared vocabulary of the model: optional values, time, identifiers and the
    caller's session.  Time is an integer number of milliseconds since the
    epoch; every handler receives the current instant as a parameter. */
module Common {

  datatype Option<+T> = None | Some(value: T) {
    function GetOr(default: T): T {
      match this
      case Some(v) => v
      case None => default
    }
  }

  /** Milliseconds since the epoch (JavaScript `Date.getTime()`). */
  type Millis = int

  type UserId = string
  type MatchId = string
  type QuizId = string

  /** The part of a next-auth session (or JWT) the handlers read. */
  datatype Session = Session(userId: UserId, isAdmin: bool)

  /** `session?.user?.isAdmin` is truthy. */
  predicate IsAdmin(auth: Option<Session>) {
    auth.Some? && auth.value.isAdmin
  }

  /** `session?.user?.id && !session.user.isAdmin`: a signed-in player. */
  predicate IsPlayer(auth: Option<Session>) {
    auth.Some? && auth.value.userId != "" && !auth.value.isAdmin
  }

  /** A request-body string field that is present and truthy (non-empty). */
  predicate Present(s: Option<string>) {
    s.Some? && s.value != ""
  }

  function Max(a: int, b: int): int {
    if a >= b then a else b
  }

  function Min(a: int, b: int): int {
    if a <= b then a else b
  }

  const MsPerSecond: int := 1000
  const MsPerMinute: int := 60 * MsPerSecond
  const MsPerHour: int := 60 * MsPerMinute
  const MsPerDay: int := 24 * MsPerHour
}
