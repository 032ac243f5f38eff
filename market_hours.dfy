/**
 * The trading-hours classifier (`is_market_hours`): closed on Saturday and
 * Sunday, otherwise open from 08:45:00 to 13:45:00 Taipei time, both ends
 * included. The conversion of the current instant to Taipei local time is
 * not modelled: the weekday and the wall-clock time are inputs.
 */
module MarketHours {

  /** Python's `datetime.weekday()`: Monday is 0, Sunday is 6. */
  type Weekday = d: int | 0 <= d < 7

  const Saturday: Weekday := 5
  const Sunday: Weekday := 6

  /** The wall-clock fields of a `datetime`, down to the microsecond. */
  datatype TimeOfDay = TimeOfDay(hour: int, minute: int, second: int, microsecond: int) {

    predicate Valid() {
      && 0 <= hour < 24
      && 0 <= minute < 60
      && 0 <= second < 60
      && 0 <= microsecond < 1000000
    }

    /** Microseconds since midnight: the order in which `datetime` compares times of one day. */
    function Micros(): int {
      ((hour * 60 + minute) * 60 + second) * 1000000 + microsecond
    }
  }

  /** `now.replace(hour=8, minute=45, second=0, microsecond=0)` */
  const MarketStart := TimeOfDay(8, 45, 0, 0)
  /** `now.replace(hour=13, minute=45, second=0, microsecond=0)` */
  const MarketEnd := TimeOfDay(13, 45, 0, 0)

  /** Field-by-field (lexicographic) order on clock readings: `a` is no later than `b`. */
  predicate NotLater(a: TimeOfDay, b: TimeOfDay) {
    || a.hour < b.hour
    || (a.hour == b.hour && a.minute < b.minute)
    || (a.hour == b.hour && a.minute == b.minute && a.second < b.second)
    || (a.hour == b.hour && a.minute == b.minute && a.second == b.second && a.microsecond <= b.microsecond)
  }

  /** Comparing microseconds since midnight agrees with comparing the clock fields in order. */
  lemma MicrosOrder(a: TimeOfDay, b: TimeOfDay)
    requires a.Valid() && b.Valid()
    ensures a.Micros() <= b.Micros() <==> NotLater(a, b)
  {
    var sa, sb := (a.hour * 60 + a.minute) * 60 + a.second, (b.hour * 60 + b.minute) * 60 + b.second;
    var ma, mb := a.hour * 60 + a.minute, b.hour * 60 + b.minute;
    assert sa < sb <==> ma < mb || (ma == mb && a.second < b.second);
    assert ma < mb <==> a.hour < b.hour || (a.hour == b.hour && a.minute < b.minute);
    assert a.Micros() <= b.Micros() <==> sa < sb || (sa == sb && a.microsecond <= b.microsecond);
  }

  /**
   * `is_market_hours` for a given Taipei weekday and time of day: open exactly
   * on weekdays between 08:45:00.000000 and 13:45:00.000000 inclusive.
   */
  function IsMarketHours(weekday: Weekday, now: TimeOfDay): (open: bool)
    requires now.Valid()
    ensures open <==> weekday < Saturday && NotLater(MarketStart, now) && NotLater(now, MarketEnd)
  {
    MicrosOrder(MarketStart, now);
    MicrosOrder(now, MarketEnd);
    if weekday >= Saturday then false
    else MarketStart.Micros() <= now.Micros() <= MarketEnd.Micros()
  }

  /** The boundaries of the window on a Tuesday, to the microsecond. */
  lemma TradingWindowBoundaries()
    ensures IsMarketHours(1, TimeOfDay(8, 45, 0, 0))
    ensures !IsMarketHours(1, TimeOfDay(8, 44, 59, 999999))
    ensures IsMarketHours(1, TimeOfDay(13, 44, 59, 0))
    ensures IsMarketHours(1, TimeOfDay(13, 45, 0, 0))
    ensures !IsMarketHours(1, TimeOfDay(13, 45, 0, 1))
    ensures !IsMarketHours(1, TimeOfDay(13, 45, 1, 0))
    ensures !IsMarketHours(Saturday, TimeOfDay(10, 0, 0, 0))
    ensures !IsMarketHours(Sunday, TimeOfDay(9, 0, 0, 0))
  {
  }
}
