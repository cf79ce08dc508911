/** `Date`: a day, month and year, each kept in range by its setter. */
module Date {
  import opened JavaLang
  import opened Calendar

  class Date {
    var day: int
    var month: int
    var year: int

    /** The ranges the setters guarantee. */
    ghost predicate Valid()
      reads this
    {
      ValidDate(year, month, day)
    }

    /** The constructor goes through the three setters: out-of-range values become defaults. */
    constructor(year: int, month: int, day: int)
      ensures Valid()
      ensures this.year == ClampYear(year) && this.month == ClampMonth(month) && this.day == ClampDay(day)
    {
      new;
      SetYear(year);
      SetMonth(month);
      SetDay(day);
    }

    method SetDay(day: int)
      modifies this
      ensures this.day == ClampDay(day) && month == old(month) && year == old(year)
    {
      if day >= 1 && day <= 31 {
        this.day := day;
      } else {
        this.day := 1;
      }
    }

    method SetMonth(month: int)
      modifies this
      ensures this.month == ClampMonth(month) && day == old(day) && year == old(year)
    {
      if month >= 1 && month <= 12 {
        this.month := month;
      } else {
        this.month := 1;
      }
    }

    method SetYear(year: int)
      modifies this
      ensures this.year == ClampYear(year) && day == old(day) && month == old(month)
    {
      if year >= -3999 && year <= 3999 {
        this.year := year;
      } else {
        this.year := 0;
      }
    }

    /** This object as `equals` would receive it. */
    function Snapshot(): Moment
      reads this
    {
      DateOf(year, month, day)
    }

    function HashCode(): (h: int)
      requires Valid()
      reads this
      ensures (h < 0) == (year < 0) && -MAX_DATE_HASH <= h <= MAX_DATE_HASH
    {
      DateHash(year, month, day)
    }

    /**
     * `equals`: the other object must be a `Date` (a `DateTime` is one), its
     * hash code, dispatched on its own class, must match, and so must the fields.
     */
    predicate Equals(other: JavaObject<Moment>)
      requires Valid() && (other.Instance? ==> ValidMoment(other.value))
      reads this
    {
      other.Instance?
      && HashCode() == MomentHash(other.value)
      && year == other.value.year && month == other.value.month && day == other.value.day
    }

    function ToString(): string
      reads this
    {
      DateString(year, month, day)
    }
  }

  /**
   * A date equals exactly the dates with the same fields: never a `DateTime`,
   * whose hash code lies outside the range of date hash codes.
   */
  lemma DateEqualsIff(d: Date, other: JavaObject<Moment>)
    requires d.Valid() && (other.Instance? ==> ValidMoment(other.value))
    ensures d.Equals(other) <==> other == Instance(d.Snapshot())
  {
    if other.Instance? && other.value.DateTimeOf? {
      var o := other.value;
      DateTimeHashRange(o.year, o.month, o.day, o.hour, o.minute);
    }
  }

  /** Dates that print alike are equal. */
  lemma DateToStringInjective(d: Date, e: Date)
    requires d.Valid() && e.Valid() && d.ToString() == e.ToString()
    ensures d.Equals(Instance(e.Snapshot()))
  {
    DateStringInjective(d.year, d.month, d.day, e.year, e.month, e.day);
  }
}
