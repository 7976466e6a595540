/** Dates and instants: the proleptic Gregorian calendar of section 21.4.1 of ECMA-262, and how
    verify.html tells a date that exists by letting it roll over. */
module Calendar {
  import opened Wrappers
  import opened Digits

  const MS_PER_DAY: int := 86400000

  datatype Civil = Civil(year: int, month: int, day: int)

  predicate LeapYear(y: int) {
    y % 4 == 0 && (y % 100 != 0 || y % 400 == 0)
  }

  /** Days of a month, as the table of section 5.7 of RFC 3339 has them. */
  function DaysInMonth(y: int, m: int): int {
    if m == 2 then (if LeapYear(y) then 29 else 28)
    else if m in {4, 6, 9, 11} then 30
    else 31
  }

  /** A date that exists. */
  predicate RealDate(c: Civil) {
    1 <= c.month <= 12 && 1 <= c.day <= DaysInMonth(c.year, c.month)
  }

  // ------------------------------------------------------------- ECMA-262's days

  function DayFromYear(y: int): int {
    365 * (y - 1970) + (y - 1969) / 4 - (y - 1901) / 100 + (y - 1601) / 400
  }

  lemma QuotientSteps(x: int)
    ensures (x + 1) / 4 == x / 4 + if (x + 1) % 4 == 0 then 1 else 0
    ensures (x + 1) / 100 == x / 100 + if (x + 1) % 100 == 0 then 1 else 0
    ensures (x + 1) / 400 == x / 400 + if (x + 1) % 400 == 0 then 1 else 0
  {
  }

  lemma ShiftBy4(y: int)
    ensures (y - 1968) % 4 == y % 4
  {
  }

  lemma ShiftBy100(y: int)
    ensures (y - 1900) % 100 == y % 100
  {
  }

  lemma ShiftBy400(y: int)
    ensures (y - 1600) % 400 == y % 400
  {
  }

  lemma Multiples(k: int)
    ensures (100 * k) % 100 == 0 && (4 * k) % 4 == 0
  {
  }

  lemma Centuries(y: int)
    ensures y % 400 == 0 ==> y % 100 == 0
    ensures y % 100 == 0 ==> y % 4 == 0
  {
    if y % 400 == 0 {
      assert y == 100 * (4 * (y / 400));
      Multiples(4 * (y / 400));
    }
    if y % 100 == 0 {
      assert y == 4 * (25 * (y / 100));
      Multiples(25 * (y / 100));
    }
  }

  lemma DayFromYearStep(y: int)
    ensures DayFromYear(y + 1) == DayFromYear(y) + if LeapYear(y) then 366 else 365
  {
    var a, b, c := y - 1969, y - 1901, y - 1601;
    QuotientSteps(a);
    QuotientSteps(b);
    QuotientSteps(c);
    ShiftBy4(y);
    ShiftBy100(y);
    ShiftBy400(y);
    Centuries(y);
    assert DayFromYear(y + 1) == 365 * (y - 1970) + 365 + (a + 1) / 4 - (b + 1) / 100 + (c + 1) / 400;
  }

  lemma {:induction false} DayFromYearMonotone(a: int, b: int)
    requires a < b
    ensures DayFromYear(a) + 365 <= DayFromYear(b)
    decreases b - a
  {
    DayFromYearStep(b - 1);
    if a < b - 1 {
      DayFromYearMonotone(a, b - 1);
    }
  }

  /** The largest y whose first day is not after d. */
  function YearFrom(d: int, y: int): (r: int)
    requires DayFromYear(y) <= d
    ensures DayFromYear(r) <= d < DayFromYear(r + 1)
    decreases d - DayFromYear(y)
  {
    DayFromYearStep(y);
    if DayFromYear(y + 1) <= d then YearFrom(d, y + 1) else y
  }

  function YearOf(d: int): (r: int)
    ensures DayFromYear(r) <= d < DayFromYear(r + 1)
  {
    YearFrom(d, if d >= 0 then 1970 else 1970 + d / 365)
  }

  /** Days of the year before month m, counted from 0. */
  function DaysBefore(m: int, leap: bool): int
    requires 0 <= m <= 12
  {
    [0, 31, 59, 90, 120, 151, 181, 212, 243, 273, 304, 334, 365][m] + if leap && m >= 2 then 1 else 0
  }

  lemma MonthLengths(y: int, m: int)
    requires 0 <= m < 12
    ensures DaysBefore(m + 1, LeapYear(y)) == DaysBefore(m, LeapYear(y)) + DaysInMonth(y, m + 1)
  {
  }

  lemma {:induction false} DaysBeforeMonotone(a: int, b: int, leap: bool)
    requires 0 <= a < b <= 12
    ensures DaysBefore(a, leap) + 28 <= DaysBefore(b, leap)
    decreases b - a
  {
    if a < b - 1 {
      DaysBeforeMonotone(a, b - 1, leap);
    }
  }

  /** The month, counted from 0, that holds day x of a year. */
  function MonthFrom(x: int, leap: bool, m: int): (r: int)
    requires 0 <= m < 12 && DaysBefore(m, leap) <= x < DaysBefore(12, leap)
    ensures 0 <= r < 12 && DaysBefore(r, leap) <= x < DaysBefore(r + 1, leap)
    decreases 12 - m
  {
    if x < DaysBefore(m + 1, leap) then m else MonthFrom(x, leap, m + 1)
  }

  /** MakeDay: months beyond a year and days beyond a month roll over. */
  function MakeDay(year: int, month: int, date: int): int
    decreases if month < 0 then 12 - month else month
  {
    if month < 0 then MakeDay(year - 1, month + 12, date)
    else if month >= 12 then MakeDay(year + 1, month - 12, date)
    else DayFromYear(year) + DaysBefore(month, LeapYear(year)) + date - 1
  }

  function DayNumber(c: Civil): int {
    MakeDay(c.year, c.month - 1, c.day)
  }

  /** YearFromTime, MonthFromTime and DateFromTime together. */
  function CivilOf(d: int): (c: Civil)
    ensures RealDate(c) && DayNumber(c) == d
  {
    var y := YearOf(d);
    DayFromYearStep(y);
    var x := d - DayFromYear(y);
    var m := MonthFrom(x, LeapYear(y), 0);
    MonthLengths(y, m);
    var c := Civil(y, m + 1, x - DaysBefore(m, LeapYear(y)) + 1);
    DayNumberParts(c);
    c
  }

  /** A later date has a later day number. */
  predicate Before(a: Civil, b: Civil) {
    a.year < b.year || (a.year == b.year && (a.month < b.month || (a.month == b.month && a.day < b.day)))
  }

  lemma DayNumberParts(c: Civil)
    requires RealDate(c)
    ensures DayNumber(c) == DayFromYear(c.year) + DaysBefore(c.month - 1, LeapYear(c.year)) + c.day - 1
    ensures DayNumber(c) < DayFromYear(c.year) + DaysBefore(c.month, LeapYear(c.year))
  {
    MonthLengths(c.year, c.month - 1);
  }

  lemma DayNumberInYear(c: Civil)
    requires RealDate(c)
    ensures DayFromYear(c.year) <= DayNumber(c) < DayFromYear(c.year + 1)
  {
    DayNumberParts(c);
    DayFromYearStep(c.year);
    if c.month > 1 {
      DaysBeforeMonotone(0, c.month - 1, LeapYear(c.year));
    }
    if c.month < 12 {
      DaysBeforeMonotone(c.month, 12, LeapYear(c.year));
    }
  }

  lemma {:induction false} EarlierDateEarlierDay(a: Civil, b: Civil)
    requires RealDate(a) && RealDate(b) && Before(a, b)
    ensures DayNumber(a) < DayNumber(b)
  {
    if a.year < b.year {
      DayNumberInYear(a);
      DayNumberInYear(b);
      if a.year + 1 < b.year {
        DayFromYearMonotone(a.year + 1, b.year);
      }
    } else {
      DayNumberParts(a);
      DayNumberParts(b);
      if a.month < b.month - 1 {
        DaysBeforeMonotone(a.month, b.month - 1, LeapYear(a.year));
      }
    }
  }

  /** The two maps undo each other. */
  lemma {:induction false} CivilOfDayNumber(c: Civil)
    requires RealDate(c)
    ensures CivilOf(DayNumber(c)) == c
  {
    var d := CivilOf(DayNumber(c));
    if Before(c, d) {
      EarlierDateEarlierDay(c, d);
    } else if Before(d, c) {
      EarlierDateEarlierDay(d, c);
    }
  }

  /** A date survives being set and read back exactly when it exists. */
  lemma {:induction false} RollOverDetects(c: Civil)
    ensures CivilOf(DayNumber(c)) == c <==> RealDate(c)
  {
    if RealDate(c) {
      CivilOfDayNumber(c);
    }
  }

  // ----------------------------------------------------------------- parseDate

  /** An instant moved to another day, at the same time of day. */
  function OnDay(t: int, day: int): (r: int)
    ensures r / MS_PER_DAY == day && r % MS_PER_DAY == t % MS_PER_DAY
  {
    day * MS_PER_DAY + t % MS_PER_DAY
  }

  /** JavaScript's Date, as far as the code uses it: `time` in milliseconds. */
  class JsDate {
    var time: int

    constructor (t: int)
      ensures time == t
    {
      time := t;
    }

    /** Sets the date part and keeps the time of day. A date that does not exist rolls over: the fields read back are
        those that were set exactly when the date exists. */
    method SetUTCFullYear(year: int, month: int, date: int)
      modifies this
      ensures time / MS_PER_DAY == MakeDay(year, month, date)
      ensures time % MS_PER_DAY == old(time) % MS_PER_DAY
      ensures Date() == Civil(year, month + 1, date) <==> RealDate(Civil(year, month + 1, date))
    {
      time := OnDay(time, MakeDay(year, month, date));
      RollOverDetects(Civil(year, month + 1, date));
    }

    /** The UTC date of this instant; getUTCMonth counts from 0. */
    function Date(): Civil
      reads this
    {
      CivilOf(time / MS_PER_DAY)
    }

    function GetUTCFullYear(): int
      reads this
    {
      Date().year
    }

    function GetUTCMonth(): int
      reads this
    {
      Date().month - 1
    }

    function GetUTCDate(): int
      reads this
    {
      Date().day
    }

    /** Whether the three getters give back this date. */
    method Reads(m: Civil) returns (same: bool)
      ensures same <==> Date() == m
    {
      return GetUTCFullYear() == m.year && GetUTCMonth() == m.month - 1 && GetUTCDate() == m.day;
    }
  }

  /** `/^(\d{4})-(\d{2})-(\d{2})$/` */
  predicate DateShape(s: string) {
    |s| == 10 && s[4] == '-' && s[7] == '-' && AllDigits(s[..4]) && AllDigits(s[5..7]) && AllDigits(s[8..])
  }

  function DateFields(s: string): Civil
    requires DateShape(s)
  {
    Civil(NumberOf(s[..4]), NumberOf(s[5..7]), NumberOf(s[8..]))
  }

  /** The instant of a text that denotes a date that exists: midnight UTC of its day. */
  function DateValue(s: string): Option<int> {
    if DateShape(s) && RealDate(DateFields(s)) then Some(MS_PER_DAY * DayNumber(DateFields(s))) else None
  }

  lemma Midnight(t: int, day: int)
    requires t / MS_PER_DAY == day && t % MS_PER_DAY == 0
    ensures t == MS_PER_DAY * day
  {
  }

  /** Sets a date and reads it back: the instant, unless it rolled over. */
  method SetAndReadBack(m: Civil) returns (r: Option<int>)
    ensures r == if RealDate(m) then Some(MS_PER_DAY * DayNumber(m)) else None
  {
    var d := new JsDate(0);
    d.SetUTCFullYear(m.year, m.month - 1, m.day);
    var t := d.time;
    Midnight(t, DayNumber(m));
    var same := d.Reads(m);
    return if same then Some(t) else None;
  }

  method ParseDate(v: Option<string>) returns (r: Option<int>)
    ensures r == if v.None? then None else DateValue(v.value)
  {
    if v.None? || !DateShape(v.value) {
      return None;
    }
    r := SetAndReadBack(DateFields(v.value));
  }

  /** Of two texts that denote dates, the smaller text denotes the earlier instant. */
  lemma {:induction false} TextOrderIsTimeOrder(a: string, b: string)
    requires DateValue(a).Some? && DateValue(b).Some?
    ensures TextLess(a, b) <==> DateValue(a).value < DateValue(b).value
    ensures a == b <==> DateValue(a).value == DateValue(b).value
  {
    var x, y := DateFields(a), DateFields(b);
    FieldOrder(a, b);
    if Before(x, y) {
      EarlierDateEarlierDay(x, y);
    } else if Before(y, x) {
      EarlierDateEarlierDay(y, x);
    }
  }

  lemma {:induction false} FieldOrder(a: string, b: string)
    requires DateShape(a) && DateShape(b)
    ensures TextLess(a, b) <==> Before(DateFields(a), DateFields(b))
    ensures a == b <==> DateFields(a) == DateFields(b)
  {
    assert a == a[..4] + ("-" + (a[5..7] + ("-" + a[8..])));
    assert b == b[..4] + ("-" + (b[5..7] + ("-" + b[8..])));
    TextLessOfTwo(a[..4], b[..4], "-" + (a[5..7] + ("-" + a[8..])), "-" + (b[5..7] + ("-" + b[8..])));
    TextLessOfTwo("-", "-", a[5..7] + ("-" + a[8..]), b[5..7] + ("-" + b[8..]));
    TextLessOfTwo(a[5..7], b[5..7], "-" + a[8..], "-" + b[8..]);
    TextLessOfTwo("-", "-", a[8..], b[8..]);
    NumeralOrder(a[..4], b[..4]);
    NumeralOrder(a[5..7], b[5..7]);
    NumeralOrder(a[8..], b[8..]);
  }
}
