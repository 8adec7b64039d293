/** The countdown shown until a match's prediction deadline: the time left,
    split into days, hours, minutes and seconds, and each part printed with
    at least two digits. */
module Countdown {
  import opened Common
  import opened Strings

  datatype TimeLeft = TimeLeft(days: int, hours: int, minutes: int, seconds: int)

  const Zero: TimeLeft := TimeLeft(0, 0, 0, 0)

  /** The milliseconds a split stands for. */
  function TotalMs(t: TimeLeft): int {
    t.days * MsPerDay + t.hours * MsPerHour + t.minutes * MsPerMinute + t.seconds * MsPerSecond
  }

  /** Every part is in its clock range; days are unbounded. */
  predicate InRange(t: TimeLeft) {
    t.days >= 0 && 0 <= t.hours < 24 && 0 <= t.minutes < 60 && 0 <= t.seconds < 60
  }

  /** One tick of the timer: the split of `target - now`, and whether the
      target has been reached.  For a positive difference the floor
      divisions of the source agree with Dafny's, so no sign correction is
      needed. */
  function CalculateTimeLeft(target: Millis, now: Millis): (r: (TimeLeft, bool))
    ensures r.1 <==> target - now <= 0
    ensures r.1 ==> r.0 == Zero
    ensures !r.1 ==> InRange(r.0) && TotalMs(r.0) <= target - now < TotalMs(r.0) + MsPerSecond
  {
    var diff := target - now;
    if diff <= 0 then (Zero, true)
    else
      var t := TimeLeft(diff / MsPerDay, (diff % MsPerDay) / MsPerHour,
                        (diff % MsPerHour) / MsPerMinute, (diff % MsPerMinute) / MsPerSecond);
      Recombine(diff);
      (t, false)
  }

  /** The four floor divisions add back up to `diff` less its sub-second
      remainder. */
  lemma Recombine(diff: nat)
    ensures var d, h := diff / MsPerDay, (diff % MsPerDay) / MsPerHour;
            var m, s := (diff % MsPerHour) / MsPerMinute, (diff % MsPerMinute) / MsPerSecond;
            && d * MsPerDay + h * MsPerHour + m * MsPerMinute + s * MsPerSecond == diff - diff % MsPerSecond
            && 0 <= h < 24 && 0 <= m < 60 && 0 <= s < 60
  {
    var dayRest := diff % MsPerDay;
    assert diff == (diff / MsPerDay) * MsPerDay + dayRest;
    assert dayRest % MsPerHour == diff % MsPerHour by {
      ModOfMod(diff, 24, MsPerHour);
    }
    assert dayRest == (dayRest / MsPerHour) * MsPerHour + diff % MsPerHour;
    var hourRest := diff % MsPerHour;
    assert hourRest % MsPerMinute == diff % MsPerMinute by {
      ModOfMod(diff, 60, MsPerMinute);
    }
    assert hourRest == (hourRest / MsPerMinute) * MsPerMinute + diff % MsPerMinute;
    var minuteRest := diff % MsPerMinute;
    assert minuteRest % MsPerSecond == diff % MsPerSecond by {
      ModOfMod(diff, 60, MsPerSecond);
    }
    assert minuteRest == (minuteRest / MsPerSecond) * MsPerSecond + diff % MsPerSecond;
  }

  /** Reducing modulo a multiple of `b` first does not change the remainder
      modulo `b`. */
  lemma ModOfMod(n: nat, k: nat, b: nat)
    requires k > 0 && b > 0
    ensures (n % (k * b)) % b == n % b
  {
    var q := n / (k * b);
    var r := n % (k * b);
    assert n == q * (k * b) + r;
    assert n == (q * k) * b + r;
    DivModUnique(n, b, q * k + r / b, r % b);
    DivModUnique(r, b, r / b, r % b);
  }

  /** Quotient and remainder are determined by `n == q * b + r` with
      `0 <= r < b`. */
  lemma DivModUnique(n: int, b: int, q: int, r: int)
    requires b > 0 && 0 <= r < b && n == q * b + r
    ensures n / b == q && n % b == r
  {
    var q', r' := n / b, n % b;
    assert n == q' * b + r';
    if q' > q {
      MulAtLeast(q' - q, b);
    } else if q' < q {
      MulAtLeast(q - q', b);
    }
  }

  lemma MulAtLeast(d: int, b: int)
    requires d >= 1 && b > 0
    ensures d * b >= b
  {
    assert d * b == (d - 1) * b + b;
  }

  /** The split is the only in-range one that recombines to the time left:
      showing any in-range split `t` with up to 999 ms to spare gives back
      exactly `t`. */
  lemma SplitRoundTrip(t: TimeLeft, spare: int, now: Millis)
    requires InRange(t) && 0 <= spare < MsPerSecond && TotalMs(t) + spare > 0
    ensures CalculateTimeLeft(now + TotalMs(t) + spare, now) == (t, false)
  {
    var diff := TotalMs(t) + spare;
    var dayRest := t.hours * MsPerHour + t.minutes * MsPerMinute + t.seconds * MsPerSecond + spare;
    DivModUnique(diff, MsPerDay, t.days, dayRest);
    var hourRest := t.minutes * MsPerMinute + t.seconds * MsPerSecond + spare;
    DivModUnique(dayRest, MsPerHour, t.hours, hourRest);
    DivModUnique(diff, MsPerHour, t.days * 24 + t.hours, hourRest);
    var minuteRest := t.seconds * MsPerSecond + spare;
    DivModUnique(hourRest, MsPerMinute, t.minutes, minuteRest);
    DivModUnique(diff, MsPerMinute, (t.days * 24 + t.hours) * 60 + t.minutes, minuteRest);
    DivModUnique(minuteRest, MsPerSecond, t.seconds, spare);
  }

  /** `String(Math.max(0, n || 0)).padStart(2, '0')` on a whole number:
      `n || 0` only changes 0 (and NaN, which whole numbers exclude). */
  function FormatNum(n: int): (r: string)
    ensures |r| >= 2 && AllDigits(r)
    ensures DecimalValue(r) == Max(0, n)
    ensures |r| > 2 ==> r[0] != '0'
    ensures n < 100 ==> |r| == 2
  {
    var s := NatToString(Max(0, n));
    ShortNumbers(Max(0, n));
    if |s| < 2 then
      LeadingZero(s);
      "0" + s
    else s
  }

  /** One digit exactly below ten, at most two below a hundred. */
  lemma ShortNumbers(m: nat)
    ensures |NatToString(m)| == 1 <==> m < 10
    ensures m < 100 ==> |NatToString(m)| <= 2
  {
    if m < 10 {
      NatToStringLength(m, 1);
    } else if m < 100 {
      NatToStringLength(m, 2);
    }
  }

  /** A leading zero does not change a digit string's value. */
  lemma {:induction false} LeadingZero(s: string)
    requires AllDigits(s)
    ensures AllDigits("0" + s) && DecimalValue("0" + s) == DecimalValue(s)
  {
    if |s| > 0 {
      var init := s[..|s| - 1];
      LeadingZero(init);
      assert ("0" + s)[..|s|] == "0" + init;
    }
  }
}
