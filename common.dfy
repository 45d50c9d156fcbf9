/** Shared vocabulary of the SushiBE model: identifiers, optional values,
    the HTTP outcome of a controller action, money and time. */
module Common {

  /** A database identifier (SushiBE uses GUIDs; only equality matters). */
  type Id = nat

  /** Money in cents: C# `decimal` with two fractional digits is exact. */
  type Money = int

  /** A `DateTime` as its tick count (100 ns units). */
  type Ticks = int

  const TicksPerMinute: int := 600_000_000
  const TicksPerDay: int := 864_000_000_000

  datatype Option<+T> = None | Some(value: T)

  /** The HTTP result class an action returns. */
  datatype Status = Ok | Created | NoContent | NotFound | BadRequest | Conflict | Unauthorized | ServerError

  /** `DateTime.Date`: midnight of the day that contains `t`. */
  function StartOfDay(t: Ticks): (d: Ticks)
    ensures d <= t < d + TicksPerDay
    ensures d % TicksPerDay == 0
  {
    t - t % TicksPerDay
  }

  /** `t.Date.AddDays(1).AddTicks(-1)`: the last tick of the day that contains `t`. */
  function EndOfDay(t: Ticks): (e: Ticks)
    ensures StartOfDay(t) <= t <= e
    ensures e + 1 == StartOfDay(t) + TicksPerDay
  {
    StartOfDay(t) + TicksPerDay - 1
  }

  /** Every instant from midnight to the last tick of a day belongs to that day. */
  lemma SameDay(d: Ticks, t: Ticks)
    requires d % TicksPerDay == 0
    requires d <= t < d + TicksPerDay
    ensures StartOfDay(t) == d
  {
    var m := d / TicksPerDay;
    assert d == m * TicksPerDay;
    assert t == m * TicksPerDay + (t - d);
    assert 0 <= t - d < TicksPerDay;
  }

  /** The distance between two day starts is a whole number of days. */
  lemma DaysBetween(a: Ticks, b: Ticks)
    requires a % TicksPerDay == 0 && b % TicksPerDay == 0
    ensures ((b - a) / TicksPerDay) * TicksPerDay == b - a
  {
    var x, y := a / TicksPerDay, b / TicksPerDay;
    assert a == x * TicksPerDay && b == y * TicksPerDay;
    assert b - a == (y - x) * TicksPerDay;
  }
}
