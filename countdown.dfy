/**
 * The bidding countdown of frontend/src/components/Bidding.jsx:
 * `calculateTimeLeft` splits the milliseconds left until the shuffle date
 * into days, minutes and seconds with `Math.floor` and `%` on numbers.
 * Dates are integer milliseconds; the division is exact here, where the
 * source divides doubles.
 */
module Countdown {
  import opened Wrappers
  import opened GroupModel

  const MsPerSecond := 1000
  const MsPerMinute := 60000
  const MsPerHour := 3600000
  const MsPerDay := 86400000

  datatype TimeLeft = TimeLeft(days: int, minutes: int, seconds: int)

  /** JavaScript's `%`: the remainder of a division truncated towards zero. */
  function JsRem(x: real, y: real): real
    requires y > 0.0
  {
    var q := x / y;
    var t := if q >= 0.0 then q.Floor else -((-q).Floor);
    x - y * (t as real)
  }

  /** `calculateTimeLeft` for `difference = shuffleDate - now`, as the source computes it. */
  function CalculateTimeLeft(difference: int): TimeLeft
  {
    if difference > 0 then
      var d := difference as real;
      TimeLeft(
        (d / (MsPerDay as real)).Floor,
        JsRem(d / 1000.0 / 60.0, 60.0).Floor,
        JsRem(d / 1000.0, 60.0).Floor)
    else TimeLeft(0, 0, 0)
  }

  /** Dividing a whole number of milliseconds and flooring is integer division. */
  lemma FloorOfQuotient(n: int, d: int)
    requires n >= 0 && d > 0
    ensures (n as real / d as real).Floor == n / d
  {
    var q, r := n / d, n % d;
    assert n == q * d + r && 0 <= r < d;
    assert n as real / d as real == q as real + r as real / d as real;
    assert 0.0 <= r as real / d as real < 1.0;
  }

  /** Splitting a count of milliseconds by a unit and the next unit up. */
  lemma NestedQuotient(n: int, a: int, b: int)
    requires n >= 0
    requires (a == MsPerSecond && b == 60) || (a == MsPerMinute && b == 60) || (a == MsPerHour && b == 24)
    ensures n / a / b == n / (a * b)
  {
  }

  /** `Math.floor((n / unit) % 60)` is the integer `(n / unit) % 60` for whole `n >= 0`. */
  lemma FloorOfRemainder(n: int, unit: int)
    requires n >= 0 && (unit == MsPerSecond || unit == MsPerMinute)
    ensures JsRem(n as real / unit as real, 60.0).Floor == (n / unit) % 60
  {
    var x := n as real / unit as real;
    FloorOfQuotient(n, unit);
    var k := n / unit;
    var q := x / 60.0;
    assert q == n as real / (unit * 60) as real;
    FloorOfQuotient(n, unit * 60);
    NestedQuotient(n, unit, 60);
    assert q.Floor == k / 60;
    var r := JsRem(x, 60.0);
    assert r == x - 60.0 * ((k / 60) as real);
    assert k as real <= x < k as real + 1.0;
    assert k - 60 * (k / 60) == k % 60;
    assert (k % 60) as real <= r < (k % 60) as real + 1.0;
  }

  /**
   * The countdown shows whole days left, the minute within the current hour
   * and the second within the current minute; nothing is left when the
   * shuffle date has passed.
   */
  lemma TimeLeftIsIntegerDivision(difference: int)
    ensures difference <= 0 ==> CalculateTimeLeft(difference) == TimeLeft(0, 0, 0)
    ensures difference > 0 ==>
      CalculateTimeLeft(difference) == TimeLeft(difference / MsPerDay, (difference / MsPerMinute) % 60, (difference / MsPerSecond) % 60)
  {
    if difference > 0 {
      var d := difference as real;
      FloorOfQuotient(difference, MsPerDay);
      assert d / 1000.0 / 60.0 == d / (MsPerMinute as real);
      FloorOfRemainder(difference, MsPerMinute);
      FloorOfRemainder(difference, MsPerSecond);
    }
  }

  /** Minutes and seconds are always in 0..59, days never negative. */
  lemma TimeLeftBounds(difference: int)
    ensures CalculateTimeLeft(difference).days >= 0
    ensures 0 <= CalculateTimeLeft(difference).minutes < 60
    ensures 0 <= CalculateTimeLeft(difference).seconds < 60
  {
    TimeLeftIsIntegerDivision(difference);
  }

  /** The hour within the day, which the countdown computes nowhere. */
  function HoursNotShown(difference: int): (h: int)
    requires difference >= 0
    ensures 0 <= h < 24
  {
    (difference / MsPerHour) % 24
  }

  /**
   * The shown fields and the unshown hour and milliseconds together account
   * for the whole difference: hours are the only whole unit left out.
   */
  lemma {:induction false} TimeLeftDecomposes(difference: int)
    requires difference > 0
    ensures var t := CalculateTimeLeft(difference);
      difference == t.days * MsPerDay + HoursNotShown(difference) * MsPerHour
        + t.minutes * MsPerMinute + t.seconds * MsPerSecond + difference % MsPerSecond
  {
    TimeLeftIsIntegerDivision(difference);
    var s := difference / 1000;
    var m := s / 60;
    var h := m / 60;
    NestedQuotient(difference, 1000, 60);
    NestedQuotient(difference, 60000, 60);
    NestedQuotient(difference, 3600000, 24);
    assert difference / MsPerMinute == m && difference / MsPerHour == h && difference / MsPerDay == h / 24;
    assert difference == s * 1000 + difference % 1000;
    assert s == m * 60 + s % 60;
    assert m == h * 60 + m % 60;
    assert h == (h / 24) * 24 + h % 24;
  }

  /** An hour before the shuffle date the countdown reads zero everywhere. */
  lemma OneHourShowsNothing()
    ensures CalculateTimeLeft(MsPerHour) == TimeLeft(0, 0, 0)
  {
    TimeLeftIsIntegerDivision(MsPerHour);
  }

  /** The effect in `Bidding`: a countdown runs only for a started group with a shuffle date. */
  function Countdown(shuffleDate: Option<int>, status: Status, now: int): (r: Option<TimeLeft>)
    ensures r.Some? <==> shuffleDate.Some? && status == Started
    ensures r.Some? ==> r.value == CalculateTimeLeft(shuffleDate.value - now)
  {
    if shuffleDate.None? || status != Started then None
    else Some(CalculateTimeLeft(shuffleDate.value - now))
  }
}
