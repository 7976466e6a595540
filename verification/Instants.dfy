/** Date-times: how implement.html writes them (toISOString without milliseconds) and how
    verify.html reads them back (Date.parse, with every field compared). */
module Instants {
  import opened Wrappers
  import opened Digits
  import opened Calendar

  /** A UTC date and time of day, to the second. */
  datatype Stamp = Stamp(date: Civil, hour: int, minute: int, second: int)

  predicate RealStamp(s: Stamp) {
    RealDate(s.date) && 0 <= s.hour < 24 && 0 <= s.minute < 60 && 0 <= s.second < 60
  }

  /** Milliseconds since the epoch. */
  function InstantOf(s: Stamp): int {
    MS_PER_DAY * DayNumber(s.date) + 1000 * SecondOfDay(s)
  }

  function SecondOfDay(s: Stamp): int {
    3600 * s.hour + 60 * s.minute + s.second
  }

  /** Hours, minutes and seconds of a number of seconds. */
  function ClockOf(second: nat): (c: (int, int, int))
    ensures 3600 * c.0 + 60 * c.1 + c.2 == second && 0 <= c.0 && 0 <= c.1 < 60 && 0 <= c.2 < 60
  {
    if second >= 3600 then
      var (h, m, s) := ClockOf(second - 3600);
      (h + 1, m, s)
    else if second >= 60 then
      var (h, m, s) := ClockOf(second - 60);
      (h, m + 1, s)
    else (0, 0, second)
  }

  /** HourFromTime, MinFromTime and SecFromTime with the date. */
  function StampOf(t: int): Stamp {
    var (h, m, s) := ClockOf(t % MS_PER_DAY / 1000);
    Stamp(CivilOf(t / MS_PER_DAY), h, m, s)
  }

  /** The fields of an instant always exist, and they are the second the instant lies in. */
  lemma {:induction false} StampIsReal(t: int)
    ensures RealStamp(StampOf(t)) && InstantOf(StampOf(t)) <= t < InstantOf(StampOf(t)) + 1000
  {
    assert t == MS_PER_DAY * (t / MS_PER_DAY) + t % MS_PER_DAY;
  }

  /** Two real stamps that start the same second are the same. */
  lemma {:induction false} StampIsUnique(a: Stamp, b: Stamp, t: int)
    requires RealStamp(a) && RealStamp(b)
    requires InstantOf(a) <= t < InstantOf(a) + 1000 && InstantOf(b) <= t < InstantOf(b) + 1000
    ensures a == b
  {
    SameSecond(DayNumber(a.date), SecondOfDay(a), DayNumber(b.date), SecondOfDay(b), t);
    CivilOfDayNumber(a.date);
    CivilOfDayNumber(b.date);
  }

  lemma SameSecond(d: int, x: int, e: int, y: int, t: int)
    requires 0 <= x < 86400 && 0 <= y < 86400
    requires MS_PER_DAY * d + 1000 * x <= t < MS_PER_DAY * d + 1000 * x + 1000
    requires MS_PER_DAY * e + 1000 * y <= t < MS_PER_DAY * e + 1000 * y + 1000
    ensures d == e && x == y
  {
  }

  /** Every instant of the second that a real stamp names has that stamp. */
  lemma {:induction false} StampOfInstant(s: Stamp, t: int)
    requires RealStamp(s) && InstantOf(s) <= t < InstantOf(s) + 1000
    ensures StampOf(t) == s
  {
    StampIsReal(t);
    StampIsUnique(s, StampOf(t), t);
  }

  // ------------------------------------------------------------------- writing

  /** YYYY-MM-DD, for the years 0 to 9999. */
  function DateText(c: Civil): string
    requires 0 <= c.year && 0 <= c.month && 0 <= c.day
  {
    Numeral(c.year, 4) + "-" + Numeral(c.month, 2) + "-" + Numeral(c.day, 2)
  }

  function TimeText(s: Stamp): string
    requires RealStamp(s)
  {
    Numeral(s.hour, 2) + ":" + Numeral(s.minute, 2) + ":" + Numeral(s.second, 2)
  }

  /** `toISOString`, for the years 0 to 9999. */
  function IsoString(t: int): string
    requires 0 <= StampOf(t).date.year <= 9999
  {
    StampIsReal(t);
    var s := StampOf(t);
    DateText(s.date) + "T" + TimeText(s) + "." + Numeral(t % 1000, 3) + "Z"
  }

  /** How many digits stand right before position n. */
  function DigitsBefore(s: string, n: nat): nat
    requires n <= |s|
  {
    if n == 0 || !IsDigit(s[n - 1]) then 0 else 1 + DigitsBefore(s, n - 1)
  }

  /** `replace(/\.\d+Z$/, "Z")` */
  function DropFraction(s: string): string {
    if s == "" || s[|s| - 1] != 'Z' then s
    else
      var n := DigitsBefore(s, |s| - 1);
      DigitsBeforeBound(s, |s| - 1);
      if n > 0 && n < |s| - 1 && s[|s| - 2 - n] == '.' then s[..|s| - 2 - n] + "Z" else s
  }

  lemma DigitsBeforeBound(s: string, n: nat)
    requires n <= |s|
    ensures DigitsBefore(s, n) <= n
  {
  }

  /** What the signer writes for an instant. */
  function SecondText(t: int): string
    requires 0 <= StampOf(t).date.year <= 9999
  {
    DropFraction(IsoString(t))
  }

  function StampText(s: Stamp): string
    requires RealStamp(s) && 0 <= s.date.year
  {
    DateText(s.date) + "T" + TimeText(s) + "Z"
  }

  lemma {:induction false} DropsMilliseconds(front: string, ms: nat)
    ensures DropFraction(front + "." + Numeral(ms, 3) + "Z") == front + "Z"
  {
    var digits := Numeral(ms, 3);
    var s := front + "." + digits + "Z";
    var n := |front| + 1;
    assert s[n] == digits[0] && s[n + 1] == digits[1] && s[n + 2] == digits[2] && s[n - 1] == '.' && s[n + 3] == 'Z';
    assert DigitsBefore(s, n) == 0;
    assert DigitsBefore(s, n + 1) == 1;
    assert DigitsBefore(s, n + 2) == 2;
    assert DigitsBefore(s, n + 3) == 3;
    assert s[..|front|] == front;
  }

  /** The signed text of an instant is that of its second. */
  lemma {:induction false} SecondTextIsStamp(t: int)
    requires 0 <= StampOf(t).date.year <= 9999
    ensures RealStamp(StampOf(t)) && SecondText(t) == StampText(StampOf(t))
  {
    StampIsReal(t);
    var s := StampOf(t);
    DropsMilliseconds(DateText(s.date) + "T" + TimeText(s), t % 1000);
  }

  // ------------------------------------------------------------------- reading

  /** `/^(\d{4})-(\d{2})-(\d{2})T(\d{2}):(\d{2}):(\d{2})(\.\d+)?Z$/` */
  predicate StampShape(s: string) {
    && |s| >= 20 && DateShape(s[..10]) && s[10] == 'T' && s[13] == ':' && s[16] == ':'
    && AllDigits(s[11..13]) && AllDigits(s[14..16]) && AllDigits(s[17..19])
    && s[|s| - 1] == 'Z'
    && (|s| == 20 || (|s| > 21 && s[19] == '.' && AllDigits(s[20..|s| - 1])))
  }

  function StampFields(s: string): Stamp
    requires StampShape(s)
  {
    Stamp(DateFields(s[..10]), NumberOf(s[11..13]), NumberOf(s[14..16]), NumberOf(s[17..19]))
  }

  /** What is relied on of Date.parse: it reads the texts of section 21.4.1.32 of ECMA-262 that denote an
      instant, to the millisecond. For all other texts any answer is allowed. */
  ghost predicate ParsesDates(parse: string -> Option<int>) {
    forall s :: ParsesText(parse, s)
  }

  predicate ParsesText(parse: string -> Option<int>, s: string) {
    && (StampShape(s) && RealStamp(StampFields(s)) ==>
          parse(s).Some? && WithinSecond(parse(s).value, StampFields(s), |s| == 20))
    && (DateValue(s).Some? ==> parse(s) == DateValue(s))
  }

  /** t lies in the second of s, at its very start if `exact`. */
  predicate WithinSecond(t: int, s: Stamp, exact: bool) {
    InstantOf(s) <= t < InstantOf(s) + 1000 && (exact ==> t == InstantOf(s))
  }

  /** `parseDateTime` */
  function ParseDateTime(parse: string -> Option<int>, v: Option<string>): Option<int> {
    if v.None? || !StampShape(v.value) then None
    else
      var t := parse(v.value);
      if t.Some? && StampOf(t.value) == StampFields(v.value) then t else None
  }

  /** It accepts exactly the texts of that shape whose fields all exist, whatever Date.parse makes of
      the others, and the value lies in the second they name. */
  lemma {:induction false} DateTimeIsExact(parse: string -> Option<int>, v: string)
    requires ParsesDates(parse)
    ensures ParseDateTime(parse, Some(v)).Some? <==> StampShape(v) && RealStamp(StampFields(v))
    ensures ParseDateTime(parse, Some(v)).Some? ==>
              WithinSecond(ParseDateTime(parse, Some(v)).value, StampFields(v), |v| == 20)
  {
    assert ParsesText(parse, v);
    if StampShape(v) && parse(v).Some? {
      FieldsTell(parse(v).value, StampFields(v), |v| == 20);
    }
  }

  lemma {:induction false} FieldsTell(t: int, s: Stamp, exact: bool)
    ensures StampOf(t) == s ==> RealStamp(s)
    ensures RealStamp(s) && WithinSecond(t, s, exact) ==> StampOf(t) == s
  {
    StampIsReal(t);
    if RealStamp(s) && WithinSecond(t, s, exact) {
      StampOfInstant(s, t);
    }
  }

  // --------------------------------------------------------------- round trip

  lemma DashedFields(y: string, m: string, d: string)
    requires |y| == 4 && |m| == 2 && |d| == 2 && AllDigits(y) && AllDigits(m) && AllDigits(d)
    ensures DateShape(y + "-" + m + "-" + d)
    ensures DateFields(y + "-" + m + "-" + d) == Civil(NumberOf(y), NumberOf(m), NumberOf(d))
  {
    var s := y + "-" + m + "-" + d;
    assert s[4] == '-' && s[7] == '-';
    assert s[..4] == y;
    assert s[5..7] == m;
    assert s[8..] == d;
  }

  lemma Powers()
    ensures Power10(2) == 100 && Power10(4) == 10000
  {
    assert Power10(1) == 10 && Power10(3) == 1000;
  }

  lemma {:induction false} DateTextFields(c: Civil)
    requires RealDate(c) && 0 <= c.year <= 9999
    ensures DateShape(DateText(c)) && DateFields(DateText(c)) == c
  {
    Powers();
    DashedFields(Numeral(c.year, 4), Numeral(c.month, 2), Numeral(c.day, 2));
    NumberOfNumeral(c.year, 4);
    NumberOfNumeral(c.month, 2);
    NumberOfNumeral(c.day, 2);
  }

  lemma {:induction false} StampTextFields(s: Stamp)
    requires RealStamp(s) && 0 <= s.date.year <= 9999
    ensures |StampText(s)| == 20 && StampShape(StampText(s)) && StampFields(StampText(s)) == s
  {
    var text := StampText(s);
    var date, h, m, sec := DateText(s.date), Numeral(s.hour, 2), Numeral(s.minute, 2), Numeral(s.second, 2);
    DateTextFields(s.date);
    assert |date| == 10;
    assert text[..10] == date && text[11..13] == h && text[14..16] == m && text[17..19] == sec;
    Powers();
    NumberOfNumeral(s.hour, 2);
    NumberOfNumeral(s.minute, 2);
    NumberOfNumeral(s.second, 2);
  }

  lemma {:induction false} StampTextReadsBack(parse: string -> Option<int>, s: Stamp)
    requires ParsesDates(parse) && RealStamp(s) && 0 <= s.date.year <= 9999
    ensures ParseDateTime(parse, Some(StampText(s))) == Some(InstantOf(s))
  {
    StampTextFields(s);
    DateTimeIsExact(parse, StampText(s));
  }

  lemma WholeSecond(day: int, second: int, t: int)
    requires MS_PER_DAY * day + 1000 * second <= t < MS_PER_DAY * day + 1000 * second + 1000
    ensures MS_PER_DAY * day + 1000 * second == SecondStart(t)
  {
    var k := 86400 * day + second;
    assert t == 1000 * k + (t - 1000 * k);
  }

  function SecondStart(t: int): int {
    t - t % 1000
  }

  lemma {:induction false} TextReadsBack(parse: string -> Option<int>, text: string, s: Stamp, t: int)
    requires ParsesDates(parse) && RealStamp(s) && 0 <= s.date.year <= 9999 && text == StampText(s)
    requires InstantOf(s) <= t < InstantOf(s) + 1000
    ensures ParseDateTime(parse, Some(text)) == Some(SecondStart(t))
  {
    StampTextReadsBack(parse, s);
    WholeSecond(DayNumber(s.date), SecondOfDay(s), t);
  }

  /** What the signer writes for an instant, the verifier reads back as the start of its second. */
  lemma {:induction false} SecondTextReadsBack(parse: string -> Option<int>, t: int)
    requires ParsesDates(parse) && 0 <= StampOf(t).date.year <= 9999
    ensures ParseDateTime(parse, Some(SecondText(t))) == Some(SecondStart(t))
  {
    SecondTextIsStamp(t);
    StampIsReal(t);
    TextReadsBack(parse, SecondText(t), StampOf(t), t);
  }
}
