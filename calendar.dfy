/** ECMAScript time values: integer milliseconds since 1970-01-01T00:00:00Z on
    the proleptic Gregorian calendar, their calendar fields, the text
    Date.prototype.toISOString gives them, and the date-time strings the
    Date constructor reads back. Everything is UTC. */
module Calendar {
  import opened Wrappers
  import opened Text

  const MsPerSecond: int := 1000
  const MsPerMinute: int := 60_000
  const MsPerHour: int := 3_600_000
  const MsPerDay: int := 86_400_000

  /** The largest distance from the epoch a Date may hold (TimeClip). */
  const MaxTime: int := 8_640_000_000_000_000

  type TimeValue = t: int | -MaxTime <= t <= MaxTime

  /** TimeClip on an integer time: NaN (None) outside the representable range. */
  function TimeClip(t: int): (r: Option<TimeValue>)
    ensures r.Some? <==> -MaxTime <= t <= MaxTime
    ensures r.Some? ==> r.value == t
  {
    if -MaxTime <= t <= MaxTime then Some(t) else None
  }

  // ---------------------------------------------------------------- years

  predicate IsLeapYear(y: int) {
    y % 4 == 0 && (y % 100 != 0 || y % 400 == 0)
  }

  function DaysInYear(y: int): int {
    if IsLeapYear(y) then 366 else 365
  }

  /** Leap years before year y, counted from a fixed origin. */
  function LeapYearsBefore(y: int): int {
    (y - 1) / 4 - (y - 1) / 100 + (y - 1) / 400
  }

  /** Day number (days since 1970-01-01) of January 1st of year y. */
  function DaysBeforeYear(y: int): int {
    365 * (y - 1970) + LeapYearsBefore(y) - 477
  }

  lemma StepOf(y: int)
    ensures y / 4 - (y - 1) / 4 == (if y % 4 == 0 then 1 else 0)
    ensures y / 100 - (y - 1) / 100 == (if y % 100 == 0 then 1 else 0)
    ensures y / 400 - (y - 1) / 400 == (if y % 400 == 0 then 1 else 0)
    ensures y % 400 == 0 ==> y % 100 == 0
    ensures y % 100 == 0 ==> y % 4 == 0
  {
    if y % 400 == 0 {
      var k := y / 400;
      assert y == 100 * (4 * k);
    }
    if y % 100 == 0 {
      var k := y / 100;
      assert y == 4 * (25 * k);
    }
  }

  lemma DaysBeforeNextYear(y: int)
    ensures DaysBeforeYear(y + 1) == DaysBeforeYear(y) + DaysInYear(y)
  {
    StepOf(y);
  }

  /** DaysBeforeYear stays within a day and a half of the mean Gregorian year. */
  lemma DaysBeforeYearBounds(y: int)
    ensures -607 < 400 * DaysBeforeYear(y) - 146097 * (y - 1970) < 593
  {
    var a := y - 1;
    assert 4 * (a / 4) <= a < 4 * (a / 4) + 4;
    assert 100 * (a / 100) <= a < 100 * (a / 100) + 100;
    assert 400 * (a / 400) <= a < 400 * (a / 400) + 400;
  }

  /** The year holding day number z. */
  function YearOfDay(z: int): (y: int)
    ensures DaysBeforeYear(y) <= z < DaysBeforeYear(y + 1)
  {
    var y0 := 1970 + (400 * z) / 146097;
    DaysBeforeYearBounds(y0 - 1);
    DaysBeforeYearBounds(y0);
    DaysBeforeYearBounds(y0 + 1);
    DaysBeforeYearBounds(y0 + 2);
    if z < DaysBeforeYear(y0) then y0 - 1
    else if z >= DaysBeforeYear(y0 + 1) then y0 + 1
    else y0
  }

  /** Years partition the day numbers: each day lies in exactly one year. */
  lemma YearOfDayUnique(z: int, y: int)
    requires DaysBeforeYear(y) <= z < DaysBeforeYear(y + 1)
    ensures YearOfDay(z) == y
  {
    var x := YearOfDay(z);
    DaysBeforeYearBounds(x);
    DaysBeforeYearBounds(x + 1);
    DaysBeforeYearBounds(y);
    DaysBeforeYearBounds(y + 1);
  }

  /** Days before year hi and after year lo bound the year. */
  lemma YearOfDayBetween(z: int, lo: int, hi: int)
    requires DaysBeforeYear(lo) <= z < DaysBeforeYear(hi)
    ensures lo <= YearOfDay(z) < hi
  {
    var x := YearOfDay(z);
    DaysBeforeYearBounds(x);
    DaysBeforeYearBounds(x + 1);
    DaysBeforeYearBounds(lo);
    DaysBeforeYearBounds(hi);
  }

  // --------------------------------------------------------------- months

  /** Days of year y before the first of month m (1 = January). */
  function DaysBeforeMonth(y: int, m: int): int
    requires 1 <= m <= 12
  {
    var leap := if IsLeapYear(y) then 1 else 0;
    if m == 1 then 0
    else if m == 2 then 31
    else if m == 3 then 59 + leap
    else if m == 4 then 90 + leap
    else if m == 5 then 120 + leap
    else if m == 6 then 151 + leap
    else if m == 7 then 181 + leap
    else if m == 8 then 212 + leap
    else if m == 9 then 243 + leap
    else if m == 10 then 273 + leap
    else if m == 11 then 304 + leap
    else 334 + leap
  }

  function DaysInMonth(y: int, m: int): int
    requires 1 <= m <= 12
  {
    if m == 2 then (if IsLeapYear(y) then 29 else 28)
    else if m == 4 || m == 6 || m == 9 || m == 11 then 30
    else 31
  }

  /** The month holding day `doy` (0-based) of year y. */
  function MonthOfDay(y: int, doy: int): (m: int)
    requires 0 <= doy < DaysInYear(y)
    ensures 1 <= m <= 12
    ensures DaysBeforeMonth(y, m) <= doy < DaysBeforeMonth(y, m) + DaysInMonth(y, m)
  {
    if doy < DaysBeforeMonth(y, 2) then 1
    else if doy < DaysBeforeMonth(y, 3) then 2
    else if doy < DaysBeforeMonth(y, 4) then 3
    else if doy < DaysBeforeMonth(y, 5) then 4
    else if doy < DaysBeforeMonth(y, 6) then 5
    else if doy < DaysBeforeMonth(y, 7) then 6
    else if doy < DaysBeforeMonth(y, 8) then 7
    else if doy < DaysBeforeMonth(y, 9) then 8
    else if doy < DaysBeforeMonth(y, 10) then 9
    else if doy < DaysBeforeMonth(y, 11) then 10
    else if doy < DaysBeforeMonth(y, 12) then 11
    else 12
  }

  lemma MonthOfDayUnique(y: int, m: int, doy: int)
    requires 1 <= m <= 12
    requires DaysBeforeMonth(y, m) <= doy < DaysBeforeMonth(y, m) + DaysInMonth(y, m)
    ensures 0 <= doy < DaysInYear(y)
    ensures MonthOfDay(y, doy) == m
  {
  }

  // ----------------------------------------------------------- civil dates

  /** A calendar date; month and day are 1-based. */
  datatype Civil = Civil(year: int, month: int, day: int)

  predicate ValidCivil(c: Civil) {
    1 <= c.month <= 12 && 1 <= c.day <= DaysInMonth(c.year, c.month)
  }

  /** Day number of a date; the day may run past the end of its month. */
  function DaysFromCivil(c: Civil): int
    requires 1 <= c.month <= 12
  {
    DaysBeforeYear(c.year) + DaysBeforeMonth(c.year, c.month) + c.day - 1
  }

  /** The calendar date of day number z. */
  function CivilFromDays(z: int): (c: Civil)
    ensures ValidCivil(c) && DaysFromCivil(c) == z
  {
    var y := YearOfDay(z);
    DaysBeforeNextYear(y);
    var doy := z - DaysBeforeYear(y);
    var m := MonthOfDay(y, doy);
    Civil(y, m, doy - DaysBeforeMonth(y, m) + 1)
  }

  /** Every valid date is the date of its own day number. */
  lemma CivilRoundTrip(c: Civil)
    requires ValidCivil(c)
    ensures CivilFromDays(DaysFromCivil(c)) == c
  {
    var z := DaysFromCivil(c);
    var doy := DaysBeforeMonth(c.year, c.month) + c.day - 1;
    MonthOfDayUnique(c.year, c.month, doy);
    DaysBeforeNextYear(c.year);
    YearOfDayUnique(z, c.year);
    assert z - DaysBeforeYear(YearOfDay(z)) == doy;
  }

  // ------------------------------------------------------ date-time fields

  /** The UTC fields of a time value, as the getUTC* accessors give them. */
  datatype DateTime = DateTime(date: Civil, hour: int, minute: int, second: int, millisecond: int)

  predicate ValidDateTime(f: DateTime) {
    && ValidCivil(f.date)
    && 0 <= f.hour < 24 && 0 <= f.minute < 60 && 0 <= f.second < 60
    && 0 <= f.millisecond < 1000
  }

  /** Milliseconds since midnight. */
  function TimeInDay(f: DateTime): int {
    f.hour * MsPerHour + f.minute * MsPerMinute + f.second * MsPerSecond + f.millisecond
  }

  /** MakeDate(MakeDay(…), MakeTime(…)) for in-range fields. */
  function TimeOfDateTime(f: DateTime): int
    requires 1 <= f.date.month <= 12
  {
    DaysFromCivil(f.date) * MsPerDay + TimeInDay(f)
  }

  /** The fields of time value t; TimeOfDateTime inverts it. */
  function DateTimeOf(t: int): (f: DateTime)
    ensures ValidDateTime(f) && TimeOfDateTime(f) == t
  {
    var ms := t % MsPerDay;
    var seconds := ms / 1000;
    var minutes := seconds / 60;
    SplitTimeInDay(ms);
    DateTime(CivilFromDays(t / MsPerDay), minutes / 60, minutes % 60, seconds % 60, ms % 1000)
  }

  lemma SplitTimeInDay(ms: int)
    requires 0 <= ms < MsPerDay
    ensures ms / 1000 / 60 / 60 < 24
    ensures ms == (ms / 1000 / 60 / 60) * MsPerHour + (ms / 1000 / 60 % 60) * MsPerMinute
                  + (ms / 1000 % 60) * MsPerSecond + ms % 1000
  {
    var seconds := ms / 1000;
    var minutes := seconds / 60;
    assert ms == 1000 * seconds + ms % 1000;
    assert seconds == 60 * minutes + seconds % 60;
    assert minutes == 60 * (minutes / 60) + minutes % 60;
  }

  /** Different valid fields never denote the same time. */
  lemma DateTimeRoundTrip(f: DateTime)
    requires ValidDateTime(f)
    ensures DateTimeOf(TimeOfDateTime(f)) == f
  {
    var t := TimeOfDateTime(f);
    var inDay := TimeInDay(f);
    assert 0 <= inDay < MsPerDay;
    assert t / MsPerDay == DaysFromCivil(f.date);
    assert t % MsPerDay == inDay;
    CivilRoundTrip(f.date);
  }

  // --------------------------------------------------------------- ISO text

  /** The year as toISOString writes it: four digits, or a sign and six. */
  function IsoYear(y: int): string {
    if 0 <= y <= 9999 then Fixed4(y)
    else (if y < 0 then "-" else "+") + Fixed6(if y < 0 then -y else y)
  }

  /** "-MM-DDTHH:mm:ss.sssZ", the part of an ISO string after the year. */
  function IsoRest(f: DateTime): string
    requires ValidDateTime(f)
  {
    ['-', DigitChar(f.date.month / 10), DigitChar(f.date.month),
     '-', DigitChar(f.date.day / 10), DigitChar(f.date.day),
     'T', DigitChar(f.hour / 10), DigitChar(f.hour),
     ':', DigitChar(f.minute / 10), DigitChar(f.minute),
     ':', DigitChar(f.second / 10), DigitChar(f.second),
     '.', DigitChar(f.millisecond / 100), DigitChar(f.millisecond / 10), DigitChar(f.millisecond),
     'Z']
  }

  /** Date.prototype.toISOString. */
  function IsoString(t: TimeValue): string {
    var f := DateTimeOf(t);
    IsoYear(f.date.year) + IsoRest(f)
  }

  // ------------------------------------------------------------- parsing

  function Digits2At(s: string, i: nat): bool
    requires i + 2 <= |s|
  {
    IsDigit(s[i]) && IsDigit(s[i + 1])
  }

  /** Whether s begins YYYY-MM-DD?HH:MM with digits in place, `?` being 'T'
      or a space. */
  predicate MinuteShape(s: string) {
    && |s| >= 16
    && IsDigit(s[0]) && IsDigit(s[1]) && IsDigit(s[2]) && IsDigit(s[3])
    && s[4] == '-' && Digits2At(s, 5) && s[7] == '-' && Digits2At(s, 8)
    && (s[10] == 'T' || s[10] == ' ')
    && Digits2At(s, 11) && s[13] == ':' && Digits2At(s, 14)
  }

  /** Whether s begins YYYY-MM-DD?HH:MM:SS with digits in place. */
  predicate DateTimeShape(s: string) {
    |s| >= 19 && MinuteShape(s) && s[16] == ':' && Digits2At(s, 17)
  }

  /** Whether the first n characters of s are a date and a clock: HH:MM
      (n = 16), HH:MM:SS (n = 19) or HH:MM:SS.sss (n = 23). */
  predicate ClockShape(s: string, n: nat)
    requires n == 16 || n == 19 || n == 23
    requires n <= |s|
  {
    if n == 16 then MinuteShape(s)
    else DateTimeShape(s) && (n == 23 ==> s[19] == '.' && IsDigit(s[20]) && IsDigit(s[21]) && IsDigit(s[22]))
  }

  /** The instant the first n characters of s denote, the date and clock
      fields being read in a zone `offset` minutes east of UTC; None when
      they are malformed, out of range or outside the Date range. */
  function ParseClock(s: string, n: nat, offset: int): Option<TimeValue>
    requires n == 16 || n == 19 || n == 23
    requires n <= |s|
  {
    if !ClockShape(s, n) then None
    else
      var f := DateTime(
        Civil(Value4(s[0], s[1], s[2], s[3]), Value2(s[5], s[6]), Value2(s[8], s[9])),
        Value2(s[11], s[12]), Value2(s[14], s[15]),
        if n >= 19 then Value2(s[17], s[18]) else 0,
        if n == 23 then Value3(s[20], s[21], s[22]) else 0);
      if ValidDateTime(f) then TimeClip(TimeOfDateTime(f) - offset * MsPerMinute) else None
  }

  /** A date-only form, YYYY, YYYY-MM or YYYY-MM-DD: midnight UTC of that
      day, a missing month or day being 1. */
  function ParseDay(s: string): Option<TimeValue>
    requires |s| == 4 || |s| == 7 || |s| == 10
  {
    if !(IsDigit(s[0]) && IsDigit(s[1]) && IsDigit(s[2]) && IsDigit(s[3])) then None
    else if |s| >= 7 && !(s[4] == '-' && Digits2At(s, 5)) then None
    else if |s| == 10 && !(s[7] == '-' && Digits2At(s, 8)) then None
    else
      var f := DateTime(
        Civil(Value4(s[0], s[1], s[2], s[3]),
              if |s| >= 7 then Value2(s[5], s[6]) else 1,
              if |s| == 10 then Value2(s[8], s[9]) else 1),
        0, 0, 0, 0);
      if ValidDateTime(f) then TimeClip(TimeOfDateTime(f)) else None
  }

  /** The zone offset ±HH:MM starting at index i, in minutes east of UTC. */
  function OffsetMinutes(s: string, i: nat): (r: Option<int>)
    requires i + 6 <= |s|
    ensures r.Some? ==> -1440 < r.value < 1440
  {
    if (s[i] == '+' || s[i] == '-') && Digits2At(s, i + 1) && s[i + 3] == ':' && Digits2At(s, i + 4)
       && Value2(s[i + 1], s[i + 2]) < 24 && Value2(s[i + 4], s[i + 5]) < 60
    then
      var m := Value2(s[i + 1], s[i + 2]) * 60 + Value2(s[i + 4], s[i + 5]);
      Some(if s[i] == '-' then -m else m)
    else None
  }

  /** The time value the Date constructor gives a string in the date time
      string format, or None for an Invalid Date. Read forms: a date alone
      (YYYY, YYYY-MM or YYYY-MM-DD), or a date, 'T' or a space, and a clock
      HH:MM, HH:MM:SS or HH:MM:SS.sss followed by nothing, Z or an offset
      ±HH:MM. The lengths of the forms tell them apart. A date-time without
      a zone is read as UTC. */
  function ParseDate(s: string): Option<TimeValue> {
    if |s| == 4 || |s| == 7 || |s| == 10 then ParseDay(s)
    else if |s| == 16 || |s| == 19 || |s| == 23 then ParseClock(s, |s|, 0)
    else if |s| == 17 || |s| == 20 || |s| == 24 then
      if s[|s| - 1] == 'Z' then ParseClock(s, |s| - 1, 0) else None
    else if |s| == 22 || |s| == 25 || |s| == 29 then
      match OffsetMinutes(s, |s| - 6)
      case None => None
      case Some(m) => ParseClock(s, |s| - 6, m)
    else None
  }

  /** Reading a clock looks at its own characters only. */
  lemma ParseClockPrefix(s: string, t: string, n: nat, offset: int)
    requires n == 16 || n == 19 || n == 23
    requires n <= |s| && n <= |t| && s[..n] == t[..n]
    ensures ParseClock(s, n, offset) == ParseClock(t, n, offset)
  {
    assert forall k :: 0 <= k < n ==> s[k] == s[..n][k] == t[..n][k] == t[k];
  }

  /** A clock read in a zone `offset` minutes east of UTC denotes the UTC
      reading moved back by the offset. */
  lemma ParseClockOffset(s: string, n: nat, offset: int)
    requires n == 16 || n == 19 || n == 23
    requires n <= |s|
    ensures ParseClock(s, n, 0).Some? ==>
              ParseClock(s, n, offset) == TimeClip(ParseClock(s, n, 0).value - offset * MsPerMinute)
  {
  }

  /** A date-time followed by Z denotes what it denotes without a zone. */
  lemma ParseDateUtc(p: string)
    requires |p| == 16 || |p| == 19 || |p| == 23
    ensures ParseDate(p + "Z") == ParseDate(p)
  {
    var z := p + "Z";
    assert z[..|p|] == p[..|p|];
    ParseClockPrefix(z, p, |p|, 0);
  }

  /** A date-time followed by an offset ±HH:MM denotes its UTC reading moved
      back by the offset: 00:00+01:00 is 23:00 UTC of the day before. */
  lemma ParseDateZone(p: string, sign: char, hh: nat, mm: nat)
    requires |p| == 16 || |p| == 19 || |p| == 23
    requires (sign == '+' || sign == '-') && hh < 24 && mm < 60
    ensures var m := if sign == '-' then -(hh * 60 + mm) else hh * 60 + mm;
      ParseDate(p).Some? ==>
        ParseDate(p + OffsetText(sign, hh, mm)) == TimeClip(ParseDate(p).value - m * MsPerMinute)
  {
    var n := |p|;
    var o := OffsetText(sign, hh, mm);
    var s := p + o;
    assert s[..n] == p[..n];
    assert s[n..n + 6] == o;
    OffsetAt(s, n, o);
    OffsetTextMinutes(sign, hh, mm);
    var m := if sign == '-' then -(hh * 60 + mm) else hh * 60 + mm;
    ParseClockPrefix(s, p, n, m);
    ParseClockOffset(p, n, m);
    ParseDateForms(p);
    ParseDateForms(s);
  }

  /** Which reading ParseDate applies to text of each clock length. */
  lemma ParseDateForms(s: string)
    ensures |s| == 16 || |s| == 19 || |s| == 23 ==> ParseDate(s) == ParseClock(s, |s|, 0)
    ensures |s| == 22 || |s| == 25 || |s| == 29 ==>
      ParseDate(s) == match OffsetMinutes(s, |s| - 6) case None => None case Some(m) => ParseClock(s, |s| - 6, m)
  {
  }

  /** The text of the offset ±HH:MM. */
  function OffsetText(sign: char, hh: nat, mm: nat): string
    requires hh < 100 && mm < 100
  {
    [sign] + Fixed2(hh) + ":" + Fixed2(mm)
  }

  lemma OffsetTextMinutes(sign: char, hh: nat, mm: nat)
    requires (sign == '+' || sign == '-') && hh < 24 && mm < 60
    ensures OffsetMinutes(OffsetText(sign, hh, mm), 0)
            == Some(if sign == '-' then -(hh * 60 + mm) else hh * 60 + mm)
  {
    Fixed2Value(hh);
    Fixed2Value(mm);
  }

  /** Reading an offset looks at its own six characters only. */
  lemma OffsetAt(s: string, i: nat, o: string)
    requires i + 6 <= |s| && s[i..i + 6] == o
    ensures OffsetMinutes(s, i) == OffsetMinutes(o, 0)
  {
    assert s[i] == o[0] && s[i + 1] == o[1] && s[i + 2] == o[2];
    assert s[i + 3] == o[3] && s[i + 4] == o[4] && s[i + 5] == o[5];
  }

  /** A date alone denotes midnight UTC of that day. */
  lemma ParseDateOnly(d: string)
    requires |d| == 10
    ensures ParseDate(d) == ParseDate(d + "T00:00:00Z")
  {
    var s := d + "T00:00:00Z";
    assert |s| == 20 && s[19] == 'Z';
    assert s[..10] == d;
    assert forall k :: 0 <= k < 10 ==> s[k] == d[k];
    assert s[10] == 'T' && s[11] == '0' && s[12] == '0' && s[13] == ':' && s[14] == '0' && s[15] == '0';
    assert s[16] == ':' && s[17] == '0' && s[18] == '0';
  }

  /** Years 0 through 9999 lie well inside the Date range. */
  lemma FourDigitYearsInRange(f: DateTime)
    requires ValidDateTime(f) && 0 <= f.date.year <= 9999
    ensures -MaxTime <= TimeOfDateTime(f) <= MaxTime
  {
    DaysBeforeYearBounds(f.date.year);
  }

  /** toISOString, read back by the Date constructor, gives the same instant
      (four-digit years). */
  lemma ParseIsoString(t: TimeValue)
    requires 0 <= DateTimeOf(t).date.year <= 9999
    ensures ParseDate(IsoString(t)) == Some(t)
  {
    var f := DateTimeOf(t);
    var s := IsoString(t);
    var y := Fixed4(f.date.year);
    var rest := IsoRest(f);
    assert s == y + rest;
    assert |s| == 24;
    assert s[0] == y[0] && s[1] == y[1] && s[2] == y[2] && s[3] == y[3];
    assert s[4..] == rest;
    ReadFields(s, f);
    FourDigitYearsInRange(f);
  }

  /** The digits of a four-digit-year ISO string read back as its fields. */
  lemma ReadFields(s: string, f: DateTime)
    requires ValidDateTime(f) && 0 <= f.date.year <= 9999
    requires |s| == 24 && s[4..] == IsoRest(f)
    requires s[0] == Fixed4(f.date.year)[0] && s[1] == Fixed4(f.date.year)[1]
    requires s[2] == Fixed4(f.date.year)[2] && s[3] == Fixed4(f.date.year)[3]
    ensures DateTimeShape(s) && s[19] == '.' && IsDigit(s[20]) && IsDigit(s[21]) && IsDigit(s[22])
    ensures s[23] == 'Z'
    ensures Value4(s[0], s[1], s[2], s[3]) == f.date.year
    ensures Value2(s[5], s[6]) == f.date.month && Value2(s[8], s[9]) == f.date.day
    ensures Value2(s[11], s[12]) == f.hour && Value2(s[14], s[15]) == f.minute
    ensures Value2(s[17], s[18]) == f.second && Value3(s[20], s[21], s[22]) == f.millisecond
  {
    var rest := IsoRest(f);
    assert s[4] == rest[0] && s[5] == rest[1] && s[6] == rest[2] && s[7] == rest[3];
    assert s[8] == rest[4] && s[9] == rest[5] && s[10] == rest[6] && s[11] == rest[7];
    assert s[12] == rest[8] && s[13] == rest[9] && s[14] == rest[10] && s[15] == rest[11];
    assert s[16] == rest[12] && s[17] == rest[13] && s[18] == rest[14] && s[19] == rest[15];
    assert s[20] == rest[16] && s[21] == rest[17] && s[22] == rest[18] && s[23] == rest[19];
    Fixed4Value(f.date.year);
    TwoDigits(f.date.month);
    TwoDigits(f.date.day);
    TwoDigits(f.hour);
    TwoDigits(f.minute);
    TwoDigits(f.second);
    Fixed3Value(f.millisecond);
  }

  lemma TwoDigits(n: nat)
    requires n < 100
    ensures Value2(DigitChar(n / 10), DigitChar(n)) == n
  {
  }
}
