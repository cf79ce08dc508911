/**
 * `DateTime`: a `Date` plus an hour and a minute. The inherited date part is
 * a `Date` object the date-time owns; `super` calls go to it.
 */
module DateTime {
  import opened JavaLang
  import opened Calendar
  import opened Date

  class DateTime {
    const date: Date
    var hour: int
    var minute: int

    ghost predicate Valid()
      reads this, date
    {
      date.Valid() && ValidTime(hour, minute)
    }

    constructor(year: int, month: int, day: int, hour: int, minute: int)
      ensures fresh(date) && Valid()
      ensures date.year == ClampYear(year) && date.month == ClampMonth(month) && date.day == ClampDay(day)
      ensures this.hour == ClampHour(hour) && this.minute == ClampMinute(minute)
    {
      date := new Date(year, month, day);
      new;
      SetHour(hour);
      SetMinute(minute);
    }

    method SetHour(hour: int)
      modifies this
      ensures this.hour == ClampHour(hour) && minute == old(minute)
    {
      if hour >= 0 && hour <= 23 {
        this.hour := hour;
      } else {
        this.hour := 0;
      }
    }

    method SetMinute(minute: int)
      modifies this
      ensures this.minute == ClampMinute(minute) && hour == old(hour)
    {
      if minute >= 0 && minute <= 59 {
        this.minute := minute;
      } else {
        this.minute := 0;
      }
    }

    function Snapshot(): Moment
      reads this, date
    {
      DateTimeOf(date.year, date.month, date.day, hour, minute)
    }

    function HashCode(): (h: int)
      requires Valid()
      reads this, date
      ensures (h < 0) == (date.year < 0) && IsInt32(h) && SHIFT <= Abs(h)
    {
      DateTimeHashRange(date.year, date.month, date.day, hour, minute);
      DateTimeHash(date.year, date.month, date.day, hour, minute)
    }

    /**
     * `super.equals(other)` as called from a date-time: `instanceof Date`
     * holds, and its `hashCode` calls dispatch to `DateTime`.
     */
    predicate SuperEquals(other: JavaObject<Moment>)
      requires Valid() && (other.Instance? ==> ValidMoment(other.value))
      reads this, date
    {
      other.Instance?
      && HashCode() == MomentHash(other.value)
      && date.year == other.value.year && date.month == other.value.month && date.day == other.value.day
    }

    /** `equals`: a `DateTime` with the same hash code, date, hour and minute. */
    predicate Equals(other: JavaObject<Moment>)
      requires Valid() && (other.Instance? ==> ValidMoment(other.value))
      reads this, date
    {
      other.Instance? && other.value.DateTimeOf?
      && HashCode() == MomentHash(other.value)
      && SuperEquals(other)
      && hour == other.value.hour && minute == other.value.minute
    }

    function ToString(): string
      reads this, date
    {
      date.ToString() + TimeString(hour, minute)
    }
  }

  /** A date-time equals exactly the date-times with the same five fields. */
  lemma DateTimeEqualsIff(t: DateTime, other: JavaObject<Moment>)
    requires t.Valid() && (other.Instance? ==> ValidMoment(other.value))
    ensures t.Equals(other) <==> other == Instance(t.Snapshot())
  {
  }

  /** Date-times that print alike are equal. */
  lemma DateTimeToStringInjective(t: DateTime, u: DateTime)
    requires t.Valid() && u.Valid() && t.ToString() == u.ToString()
    ensures t.Equals(Instance(u.Snapshot()))
  {
    var a, b := t.date, u.date;
    DateTimeStringInjective(a.year, a.month, a.day, t.hour, t.minute, b.year, b.month, b.day, u.hour, u.minute);
  }

  /** A date and a date-time are never equal, in either direction. */
  lemma DateNeverEqualsDateTime(d: Date, t: DateTime)
    requires d.Valid() && t.Valid()
    ensures !d.Equals(Instance(t.Snapshot())) && !t.Equals(Instance(d.Snapshot()))
  {
    DateEqualsIff(d, Instance(t.Snapshot()));
  }
}
