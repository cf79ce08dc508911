/**
 * Calendar values shared by `Date` and `DateTime`: the ranges the setters
 * enforce, the two hash codes and the two printed forms.
 */
module Calendar {
  import opened JavaLang

  /** The largest magnitude a date's hash code reaches: 31/12/3999. */
  const MAX_DATE_HASH: int := 30 + 31 * 11 + 372 * 3999

  /** The shift that keeps date-time hash codes clear of date hash codes. */
  const SHIFT: int := 1_500_000

  /** `setDay`: a day in [1, 31] is kept, anything else becomes 1. */
  function ClampDay(day: int): (r: int)
    ensures 1 <= r <= 31
    ensures 1 <= day <= 31 ==> r == day
    ensures !(1 <= day <= 31) ==> r == 1
  {
    if day >= 1 && day <= 31 then day else 1
  }

  /** `setMonth`: a month in [1, 12] is kept, anything else becomes 1. */
  function ClampMonth(month: int): (r: int)
    ensures 1 <= r <= 12
    ensures 1 <= month <= 12 ==> r == month
    ensures !(1 <= month <= 12) ==> r == 1
  {
    if month >= 1 && month <= 12 then month else 1
  }

  /** `setYear`: a year in [-3999, 3999] is kept, anything else becomes 0. */
  function ClampYear(year: int): (r: int)
    ensures -3999 <= r <= 3999
    ensures -3999 <= year <= 3999 ==> r == year
    ensures !(-3999 <= year <= 3999) ==> r == 0
  {
    if year >= -3999 && year <= 3999 then year else 0
  }

  /** `setHour`: an hour in [0, 23] is kept, anything else becomes 0. */
  function ClampHour(hour: int): (r: int)
    ensures 0 <= r <= 23
    ensures 0 <= hour <= 23 ==> r == hour
    ensures !(0 <= hour <= 23) ==> r == 0
  {
    if hour >= 0 && hour <= 23 then hour else 0
  }

  /** `setMinute`: a minute in [0, 59] is kept, anything else becomes 0. */
  function ClampMinute(minute: int): (r: int)
    ensures 0 <= r <= 59
    ensures 0 <= minute <= 59 ==> r == minute
    ensures !(0 <= minute <= 59) ==> r == 0
  {
    if minute >= 0 && minute <= 59 then minute else 0
  }

  predicate ValidDate(year: int, month: int, day: int) {
    -3999 <= year <= 3999 && 1 <= month <= 12 && 1 <= day <= 31
  }

  predicate ValidTime(hour: int, minute: int) {
    0 <= hour <= 23 && 0 <= minute <= 59
  }

  /**
   * The object an `equals` call receives, when it is a `Date`: its run-time
   * class and its fields. A `DateTime` is an instance of `Date` too.
   */
  datatype Moment =
    | DateOf(year: int, month: int, day: int)
    | DateTimeOf(year: int, month: int, day: int, hour: int, minute: int)

  predicate ValidMoment(m: Moment) {
    ValidDate(m.year, m.month, m.day) && (m.DateTimeOf? ==> ValidTime(m.hour, m.minute))
  }

  function Abs(n: int): int {
    if n < 0 then -n else n
  }

  /**
   * `Date.hashCode`: the days from 01/01/0000 to the date with its year made
   * positive, counting 31 days in every month, negated for negative years.
   */
  function DateHash(year: int, month: int, day: int): (h: int)
    requires ValidDate(year, month, day)
    ensures (h < 0) == (year < 0)
    ensures -MAX_DATE_HASH <= h <= MAX_DATE_HASH
  {
    var hash := (day - 1) + 31 * (month - 1) + 31 * 12 * Abs(year);
    if year < 0 then -hash else hash
  }

  /** The hash code tells valid dates apart. */
  lemma DateHashInjective(y: int, m: int, d: int, y': int, m': int, d': int)
    requires ValidDate(y, m, d) && ValidDate(y', m', d')
    requires DateHash(y, m, d) == DateHash(y', m', d')
    ensures y == y' && m == m' && d == d'
  {
    var inYear, inYear' := (d - 1) + 31 * (m - 1), (d' - 1) + 31 * (m' - 1);
    assert 0 <= inYear < 372 && 0 <= inYear' < 372;
    assert inYear + 372 * Abs(y) == inYear' + 372 * Abs(y');
    assert Abs(y) == Abs(y');
    assert inYear == inYear';
  }

  /**
   * `DateTime.hashCode`: the minutes from 01/01/0000 00:00 to the date and
   * time, the date part taken from the magnitude of the date's hash, plus a
   * shift of 1,500,000, with the sign of the date's hash.
   */
  function DateTimeHash(year: int, month: int, day: int, hour: int, minute: int): (h: int)
    requires ValidDate(year, month, day) && ValidTime(hour, minute)
    ensures (h < 0) == (year < 0)
  {
    var superHash := DateHash(year, month, day);
    var hash := Abs(superHash) * (60 * 24) + minute + 60 * hour + SHIFT;
    if superHash < 0 then -hash else hash
  }

  /** No 32-bit overflow, and every date-time hash is further from 0 than any date hash. */
  lemma DateTimeHashRange(year: int, month: int, day: int, hour: int, minute: int)
    requires ValidDate(year, month, day) && ValidTime(hour, minute)
    ensures var h := DateTimeHash(year, month, day, hour, minute);
      IsInt32(h) && SHIFT <= Abs(h) && MAX_DATE_HASH < SHIFT
  {
    var a := Abs(DateHash(year, month, day));
    assert a <= MAX_DATE_HASH;
    assert a * 1440 <= MAX_DATE_HASH * 1440;
  }

  /** The hash code tells valid date-times apart. */
  lemma DateTimeHashInjective(y: int, m: int, d: int, hr: int, mi: int, y': int, m': int, d': int, hr': int, mi': int)
    requires ValidDate(y, m, d) && ValidTime(hr, mi) && ValidDate(y', m', d') && ValidTime(hr', mi')
    requires DateTimeHash(y, m, d, hr, mi) == DateTimeHash(y', m', d', hr', mi')
    ensures y == y' && m == m' && d == d' && hr == hr' && mi == mi'
  {
    var a, a' := Abs(DateHash(y, m, d)), Abs(DateHash(y', m', d'));
    var t, t' := mi + 60 * hr, mi' + 60 * hr';
    assert 0 <= t < 1440 && 0 <= t' < 1440;
    assert a * 1440 + t == a' * 1440 + t';
    assert a == a' && t == t';
    assert DateHash(y, m, d) == DateHash(y', m', d');
    DateHashInjective(y, m, d, y', m', d');
  }

  /** `hashCode()` of the received object, dispatched on its run-time class. */
  function MomentHash(m: Moment): int
    requires ValidMoment(m)
  {
    match m
    case DateOf(y, mo, d) => DateHash(y, mo, d)
    case DateTimeOf(y, mo, d, h, mi) => DateTimeHash(y, mo, d, h, mi)
  }

  /** `Date.toString`: `DD/MM/YYYY`, the year field five wide (sign included) when negative. */
  function DateString(year: int, month: int, day: int): string {
    FormatZeroPadded(day, 2) + "/" + FormatZeroPadded(month, 2) + "/"
      + FormatZeroPadded(year, if year >= 0 then 4 else 5)
  }

  /** The ` hh:mm` that `DateTime.toString` appends. */
  function TimeString(hour: int, minute: int): string {
    " " + FormatZeroPadded(hour, 2) + ":" + FormatZeroPadded(minute, 2)
  }

  /** The year field: four digits, after a `-` for negative years. */
  lemma YearDigits(year: int)
    requires -3999 <= year <= 3999
    ensures var ys := FormatZeroPadded(year, if year >= 0 then 4 else 5);
      (year >= 0 ==> |ys| == 4 && Denotes(ys, year))
      && (year < 0 ==> |ys| == 5 && ys[0] == '-' && Denotes(ys[1..], -year))
  {
    assert Pow10(4) == 10000;
    if year >= 0 {
      PaddedValue(year, 4);
    } else {
      NegativePadded(year, 5);
      PaddedValue(-year, 4);
    }
  }

  /** Where the pieces of `a + [x] + b + [y] + c` lie, for two-character `a` and `b`. */
  lemma SeparatedFields(a: string, x: char, b: string, y: char, c: string)
    requires |a| == 2 && |b| == 2
    ensures var s := a + [x] + b + [y] + c;
      |s| == 6 + |c| && s[0..2] == a && s[2] == x && s[3..5] == b && s[5] == y && s[6..] == c
  {
  }

  /**
   * The printed date can be read back: two digits of day, a slash, two of
   * month, a slash, then four digits of year, preceded by `-` for negative years.
   */
  lemma DateStringLayout(year: int, month: int, day: int)
    requires ValidDate(year, month, day)
    ensures var s := DateString(year, month, day);
      |s| == (if year < 0 then 11 else 10)
      && s[2] == '/' && s[5] == '/'
      && Denotes(s[0..2], day) && Denotes(s[3..5], month)
      && (year >= 0 ==> Denotes(s[6..], year))
      && (year < 0 ==> s[6] == '-' && Denotes(s[7..], -year))
  {
    TwoDigits(day);
    TwoDigits(month);
    YearDigits(year);
    DateStringPieces(year, month, day);
    FieldsRead(DateString(year, month, day), FormatZeroPadded(day, 2), FormatZeroPadded(month, 2),
      FormatZeroPadded(year, if year >= 0 then 4 else 5), year, month, day);
  }

  lemma FieldsRead(s: string, ds: string, ms: string, ys: string, year: int, month: int, day: int)
    requires |s| >= 6 && s[0..2] == ds && s[2] == '/' && s[3..5] == ms && s[5] == '/' && s[6..] == ys
    requires |ds| == 2 && Denotes(ds, day) && |ms| == 2 && Denotes(ms, month)
    requires year >= 0 ==> |ys| == 4 && Denotes(ys, year)
    requires year < 0 ==> |ys| == 5 && ys[0] == '-' && Denotes(ys[1..], -year)
    ensures |s| == (if year < 0 then 11 else 10)
      && s[2] == '/' && s[5] == '/'
      && Denotes(s[0..2], day) && Denotes(s[3..5], month)
      && (year >= 0 ==> Denotes(s[6..], year))
      && (year < 0 ==> s[6] == '-' && Denotes(s[7..], -year))
  {
    if year < 0 {
      assert s[7..] == ys[1..];
    }
  }

  /** The printed date is the padded day, a slash, the padded month, a slash and the padded year. */
  lemma DateStringPieces(year: int, month: int, day: int)
    requires ValidDate(year, month, day)
    ensures var s := DateString(year, month, day);
      s[0..2] == FormatZeroPadded(day, 2) && s[2] == '/'
      && s[3..5] == FormatZeroPadded(month, 2) && s[5] == '/'
      && s[6..] == FormatZeroPadded(year, if year >= 0 then 4 else 5)
  {
    var ds, ms := FormatZeroPadded(day, 2), FormatZeroPadded(month, 2);
    var ys := FormatZeroPadded(year, if year >= 0 then 4 else 5);
    TwoDigits(day);
    TwoDigits(month);
    assert DateString(year, month, day) == ds + ['/'] + ms + ['/'] + ys;
    SeparatedFields(ds, '/', ms, '/', ys);
  }

  /** Two valid dates print alike only when they are the same date. */
  lemma DateStringInjective(y: int, m: int, d: int, y': int, m': int, d': int)
    requires ValidDate(y, m, d) && ValidDate(y', m', d')
    requires DateString(y, m, d) == DateString(y', m', d')
    ensures y == y' && m == m' && d == d'
  {
    DateStringLayout(y, m, d);
    DateStringLayout(y', m', d');
  }

  /** The appended time is a space, two digits of hour, a colon and two digits of minute. */
  lemma TimeStringLayout(hour: int, minute: int)
    requires ValidTime(hour, minute)
    ensures var s := TimeString(hour, minute);
      |s| == 6 && s[0] == ' ' && s[3] == ':' && Denotes(s[1..3], hour) && Denotes(s[4..6], minute)
  {
    var hs, ms := FormatZeroPadded(hour, 2), FormatZeroPadded(minute, 2);
    TwoDigits(hour);
    TwoDigits(minute);
    SpacedFields(hs, ms);
  }

  /** Where the pieces of `" " + a + ":" + b` lie, for two-character `a` and `b`. */
  lemma SpacedFields(a: string, b: string)
    requires |a| == 2 && |b| == 2
    ensures var s := " " + a + ":" + b;
      |s| == 6 && s[0] == ' ' && s[3] == ':' && s[1..3] == a && s[4..6] == b
  {
  }

  /** Two valid date-times print alike only when they are the same date and time. */
  lemma DateTimeStringInjective(y: int, m: int, d: int, hr: int, mi: int, y': int, m': int, d': int, hr': int, mi': int)
    requires ValidDate(y, m, d) && ValidTime(hr, mi) && ValidDate(y', m', d') && ValidTime(hr', mi')
    requires DateString(y, m, d) + TimeString(hr, mi) == DateString(y', m', d') + TimeString(hr', mi')
    ensures y == y' && m == m' && d == d' && hr == hr' && mi == mi'
  {
    var a, b := DateString(y, m, d), TimeString(hr, mi);
    var a', b' := DateString(y', m', d'), TimeString(hr', mi');
    DateStringLayout(y, m, d);
    DateStringLayout(y', m', d');
    TimeStringLayout(hr, mi);
    TimeStringLayout(hr', mi');
    assert |a| == |a'|;
    assert a == (a + b)[..|a|] && a' == (a' + b')[..|a|];
    assert b == (a + b)[|a|..] && b' == (a' + b')[|a|..];
    DateStringInjective(y, m, d, y', m', d');
  }
}
