/** The conversion library (utils.js): timestamps in ServiceNow's format,
    elapsed-duration strings, start dates computed back from an end date,
    the dependency-type and lag codecs, and the field-name maps. */
module Utils {
  import opened Wrappers
  import opened Text
  import opened Js
  import opened Calendar

  // ------------------------------------------------------------ new Date(v)

  /** TimeClip on a number: NaN outside the Date range, else truncated. */
  function TimeClipReal(x: real): (r: Option<TimeValue>)
    ensures r.Some? <==> -MaxTime as real <= x <= MaxTime as real
    ensures r.Some? ==> r.value == Trunc(x)
  {
    if -MaxTime as real <= x <= MaxTime as real then TimeClip(Trunc(x)) else None
  }

  /** The time value of `new Date(v)`, or None for an Invalid Date. */
  function NewDate(v: Value): Option<TimeValue> {
    match v
    case Str(s) => ParseDate(s)
    case Num(n) => TimeClipReal(n)
    case Null => Some(0)
    case Bool(b) => Some(if b then 1 else 0)
    case Undefined => None
    case NaN => None
  }

  /** `new Date(d.toISOString())` is d again, for four-digit years. */
  lemma NewDateIso(t: TimeValue)
    requires 0 <= DateTimeOf(t).date.year <= 9999
    ensures NewDate(Str(IsoString(t))) == Some(t)
  {
    ParseIsoString(t);
  }

  // --------------------------------------------------- formatDateServiceNow

  /** formatDateServiceNow: the ISO string of the instant with its first "T"
      replaced by a space and its first "Z" removed. */
  function FormatDateServiceNow(date: Value): (r: Result<string>)
    ensures r.Err? <==> NewDate(date).None?
    ensures r.Err? ==> r.error == InvalidDate
  {
    match NewDate(date)
    case None => Err(InvalidDate)
    case Some(t) => Ok(ReplaceFirst(ReplaceFirst(IsoString(t), 'T', " "), 'Z', ""))
  }

  /** "-MM-DD", the date part of an ISO string after the year. */
  function DatePart(f: DateTime): string
    requires ValidDateTime(f)
  {
    ['-', DigitChar(f.date.month / 10), DigitChar(f.date.month),
     '-', DigitChar(f.date.day / 10), DigitChar(f.date.day)]
  }

  /** "HH:mm:ss.sss", the clock part of an ISO string. */
  function ClockPart(f: DateTime): string
    requires ValidDateTime(f)
  {
    [DigitChar(f.hour / 10), DigitChar(f.hour),
     ':', DigitChar(f.minute / 10), DigitChar(f.minute),
     ':', DigitChar(f.second / 10), DigitChar(f.second),
     '.', DigitChar(f.millisecond / 100), DigitChar(f.millisecond / 10), DigitChar(f.millisecond)]
  }

  /** "-MM-DD HH:mm:ss.sss": the ISO tail with a space and no zone letter. */
  function ServiceNowRest(f: DateTime): string
    requires ValidDateTime(f)
  {
    ['-', DigitChar(f.date.month / 10), DigitChar(f.date.month),
     '-', DigitChar(f.date.day / 10), DigitChar(f.date.day),
     ' ', DigitChar(f.hour / 10), DigitChar(f.hour),
     ':', DigitChar(f.minute / 10), DigitChar(f.minute),
     ':', DigitChar(f.second / 10), DigitChar(f.second),
     '.', DigitChar(f.millisecond / 100), DigitChar(f.millisecond / 10), DigitChar(f.millisecond)]
  }

  lemma RestParts(f: DateTime)
    requires ValidDateTime(f)
    ensures IsoRest(f) == DatePart(f) + "T" + ClockPart(f) + "Z"
    ensures ServiceNowRest(f) == DatePart(f) + " " + ClockPart(f)
  {
  }

  /** The two replacements turn the ISO string of a four-digit year into
      the year followed by ServiceNowRest. */
  lemma IsoToServiceNow(f: DateTime)
    requires ValidDateTime(f) && 0 <= f.date.year <= 9999
    ensures ReplaceFirst(ReplaceFirst(Fixed4(f.date.year) + IsoRest(f), 'T', " "), 'Z', "")
            == Fixed4(f.date.year) + ServiceNowRest(f)
  {
    var p := Fixed4(f.date.year) + DatePart(f);
    var clock := ClockPart(f);
    assert Fixed4(f.date.year) + IsoRest(f) == p + ("T" + clock + "Z")
        && Fixed4(f.date.year) + ServiceNowRest(f) == p + " " + clock by {
      RestParts(f);
    }
    DateChars(f);
    ClockChars(f);
    ReplaceMarkers(p, clock);
  }

  lemma DateChars(f: DateTime)
    requires ValidDateTime(f) && 0 <= f.date.year <= 9999
    ensures var p := Fixed4(f.date.year) + DatePart(f);
      forall k :: 0 <= k < |p| ==> IsDigit(p[k]) || p[k] == '-'
  {
  }

  lemma ClockChars(f: DateTime)
    requires ValidDateTime(f)
    ensures var clock := ClockPart(f);
      forall k :: 0 <= k < |clock| ==> IsDigit(clock[k]) || clock[k] == ':' || clock[k] == '.'
  {
  }

  /** Replacing the first 'T' by a space and then dropping the first 'Z'
      turns p T clock Z into p clock with a space between, when p holds
      neither letter and clock no 'Z'. */
  lemma ReplaceMarkers(p: string, clock: string)
    requires forall k :: 0 <= k < |p| ==> p[k] != 'T' && p[k] != 'Z'
    requires forall k :: 0 <= k < |clock| ==> clock[k] != 'Z'
    ensures ReplaceFirst(ReplaceFirst(p + ("T" + clock + "Z"), 'T', " "), 'Z', "") == p + " " + clock
  {
    ReplaceFirstAfter(p, "T" + clock + "Z", 'T', " ");
    assert ("T" + clock + "Z")[1..] == clock + "Z";
    assert ReplaceFirst("T" + clock + "Z", 'T', " ") == " " + (clock + "Z");
    var q := p + " " + clock;
    assert p + (" " + (clock + "Z")) == q + "Z";
    assert forall k :: 0 <= k < |q| ==> q[k] != 'Z' by {
      forall k | 0 <= k < |q| ensures q[k] != 'Z' {
        if k < |p| {
          assert q[k] == p[k];
        } else if k > |p| {
          assert q[k] == clock[k - |p| - 1];
        }
      }
    }
    ReplaceFirstAfter(q, "Z", 'Z', "");
    assert ReplaceFirst("Z", 'Z', "") == "";
  }

  /** The ServiceNow timestamp of a four-digit-year instant. */
  function ServiceNowText(t: TimeValue): string
    requires 0 <= DateTimeOf(t).date.year <= 9999
  {
    Fixed4(DateTimeOf(t).date.year) + ServiceNowRest(DateTimeOf(t))
  }

  /** For four-digit years the result is YYYY-MM-DD HH:mm:ss.sss (23
      characters, milliseconds kept), and the Date constructor reads it back
      as the same instant. */
  lemma FormatDateServiceNowShape(date: Value, t: TimeValue)
    requires NewDate(date) == Some(t)
    requires 0 <= DateTimeOf(t).date.year <= 9999
    ensures FormatDateServiceNow(date) == Ok(ServiceNowText(t))
    ensures |ServiceNowText(t)| == 23
    ensures ParseDate(ServiceNowText(t)) == Some(t)
  {
    FormatDateServiceNowOf(date, t);
    ServiceNowOfTime(t);
  }

  lemma FormatDateServiceNowOf(date: Value, t: TimeValue)
    requires NewDate(date) == Some(t)
    ensures FormatDateServiceNow(date) == Ok(ReplaceFirst(ReplaceFirst(IsoString(t), 'T', " "), 'Z', ""))
  {
  }

  lemma ServiceNowOfTime(t: TimeValue)
    requires 0 <= DateTimeOf(t).date.year <= 9999
    ensures ReplaceFirst(ReplaceFirst(IsoString(t), 'T', " "), 'Z', "") == ServiceNowText(t)
    ensures |ServiceNowText(t)| == 23
    ensures ParseDate(ServiceNowText(t)) == Some(t)
  {
    var f := DateTimeOf(t);
    assert IsoString(t) == Fixed4(f.date.year) + IsoRest(f);
    IsoToServiceNow(f);
    ParseServiceNow(ServiceNowText(t), f);
  }

  lemma ParseServiceNow(s: string, f: DateTime)
    requires ValidDateTime(f) && 0 <= f.date.year <= 9999
    requires s == Fixed4(f.date.year) + ServiceNowRest(f)
    ensures |s| == 23
    ensures ParseDate(s) == Some(TimeOfDateTime(f))
  {
    ReadServiceNowFields(s, f);
    FourDigitYearsInRange(f);
    var g := DateTime(
        Civil(Value4(s[0], s[1], s[2], s[3]), Value2(s[5], s[6]), Value2(s[8], s[9])),
        Value2(s[11], s[12]), Value2(s[14], s[15]), Value2(s[17], s[18]), Value3(s[20], s[21], s[22]));
    assert g == f;
  }

  /** The digits of a ServiceNow timestamp read back as its fields. */
  lemma ReadServiceNowFields(s: string, f: DateTime)
    requires ValidDateTime(f) && 0 <= f.date.year <= 9999
    requires s == Fixed4(f.date.year) + ServiceNowRest(f)
    ensures |s| == 23 && DateTimeShape(s) && s[19] == '.' && IsDigit(s[20]) && IsDigit(s[21]) && IsDigit(s[22])
    ensures Value4(s[0], s[1], s[2], s[3]) == f.date.year
    ensures Value2(s[5], s[6]) == f.date.month && Value2(s[8], s[9]) == f.date.day
    ensures Value2(s[11], s[12]) == f.hour && Value2(s[14], s[15]) == f.minute
    ensures Value2(s[17], s[18]) == f.second && Value3(s[20], s[21], s[22]) == f.millisecond
  {
    var y := Fixed4(f.date.year);
    var rest := ServiceNowRest(f);
    assert s[0] == y[0] && s[1] == y[1] && s[2] == y[2] && s[3] == y[3];
    assert s[4] == rest[0] && s[5] == rest[1] && s[6] == rest[2] && s[7] == rest[3];
    assert s[8] == rest[4] && s[9] == rest[5] && s[10] == rest[6] && s[11] == rest[7];
    assert s[12] == rest[8] && s[13] == rest[9] && s[14] == rest[10] && s[15] == rest[11];
    assert s[16] == rest[12] && s[17] == rest[13] && s[18] == rest[14] && s[19] == rest[15];
    assert s[20] == rest[16] && s[21] == rest[17] && s[22] == rest[18];
    Fixed4Value(f.date.year);
    TwoDigits(f.date.month);
    TwoDigits(f.date.day);
    TwoDigits(f.hour);
    TwoDigits(f.minute);
    TwoDigits(f.second);
    Fixed3Value(f.millisecond);
  }

  // ------------------------------------------------------ calculateDuration

  /** JavaScript's `%`: the remainder takes the sign of the dividend. */
  function JsRem(a: int, d: int): (r: int)
    requires d > 0
    ensures a >= 0 ==> r == a % d
  {
    if a >= 0 then a % d else -((-a) % d)
  }

  /** calculateDuration's inner `pad`: a "0" is prefixed exactly when n < 10;
      otherwise the number's own text is used. */
  function Pad(n: int): string {
    if n < 10 then "0" + IntText(n) else IntText(n)
  }

  /** Days, hours, minutes and seconds of a span, computed the way
      calculateDuration does: Math.floor division with `%` remainders. */
  datatype Elapsed = Elapsed(days: int, hours: int, minutes: int, seconds: int)

  function ElapsedOf(span: int): Elapsed {
    var days := span / MsPerDay;
    var rest := JsRem(span, MsPerDay);
    var hours := rest / MsPerHour;
    var rest2 := JsRem(rest, MsPerHour);
    Elapsed(days, hours, rest2 / MsPerMinute, JsRem(rest2, MsPerMinute) / MsPerSecond)
  }

  /** "DD HH:MM:SS" for a span in milliseconds. */
  function ElapsedText(span: int): string {
    var e := ElapsedOf(span);
    Pad(e.days) + " " + Pad(e.hours) + ":" + Pad(e.minutes) + ":" + Pad(e.seconds)
  }

  /** The duration text of the span from s to e. */
  function ElapsedFrom(s: int, e: int): string {
    ElapsedText(e - s)
  }

  /** calculateDuration(start, end): the elapsed time from start to end, or
      "NaN NaN:NaN:NaN" when either date is invalid. */
  function CalculateDuration(start: Value, end: Value): string {
    match (NewDate(start), NewDate(end))
    case (Some(s), Some(e)) => ElapsedFrom(s, e)
    case _ => "NaN NaN:NaN:NaN"
  }

  /** For a non-negative span the fields are bounded and give the span
      truncated to whole seconds. */
  lemma ElapsedOfBounds(span: int)
    requires span >= 0
    ensures var e := ElapsedOf(span);
      && e.days >= 0 && 0 <= e.hours < 24 && 0 <= e.minutes < 60 && 0 <= e.seconds < 60
      && var whole := e.days * MsPerDay + e.hours * MsPerHour + e.minutes * MsPerMinute + e.seconds * MsPerSecond;
         whole <= span < whole + MsPerSecond
  {
    var rest := span % MsPerDay;
    var rest2 := rest % MsPerHour;
    assert span == (span / MsPerDay) * MsPerDay + rest;
    assert rest == (rest / MsPerHour) * MsPerHour + rest2;
    assert rest2 == (rest2 / MsPerMinute) * MsPerMinute + rest2 % MsPerMinute;
    assert rest2 % MsPerMinute == (rest2 % MsPerMinute / MsPerSecond) * MsPerSecond + rest2 % MsPerMinute % MsPerSecond;
  }

  /** pad prefixes "0" exactly below 10: two characters for 0..9, the plain
      decimal text from 10 on, so a count of 100 or more has three digits. */
  lemma PadText(n: int)
    ensures 0 <= n < 10 ==> Pad(n) == ['0', DigitChar(n)]
    ensures n >= 10 ==> Pad(n) == NatText(n) && Pad(n)[0] != '0'
    ensures n >= 100 ==> |Pad(n)| >= 3
    ensures n >= 0 ==> AllDigits(Pad(n)) && |Pad(n)| >= 2
  {
    if n >= 0 {
      NatTextLength(n);
    }
  }

  /** Reads "D… HH:MM:SS" back into milliseconds. */
  function ParseElapsed(s: string): Option<int> {
    if |s| < 11 then None
    else
      var k := |s| - 9;
      var t := s[k..];
      if !(AllDigits(s[..k]) && t[0] == ' ' && Digits2At(t, 1) && t[3] == ':' && Digits2At(t, 4)
           && t[6] == ':' && Digits2At(t, 7))
      then None
      else Some(DigitsValue(s[..k]) * MsPerDay + Value2(t[1], t[2]) * MsPerHour
                + Value2(t[4], t[5]) * MsPerMinute + Value2(t[7], t[8]) * MsPerSecond)
  }

  lemma {:induction false} DigitsValueZeroPrefix(c: char)
    requires IsDigit(c)
    ensures DigitsValue(['0', c]) == DigitValue(c)
  {
    assert ['0', c][..1] == ['0'];
    assert ['0'][..0] == [];
  }

  lemma PadValue(n: int)
    requires n >= 0
    ensures AllDigits(Pad(n)) && DigitsValue(Pad(n)) == n
  {
    PadText(n);
    if n < 10 {
      DigitsValueZeroPrefix(DigitChar(n));
    } else {
      NatTextValue(n);
    }
  }

  lemma PadTwoDigits(n: int)
    requires 0 <= n < 100
    ensures Pad(n) == Fixed2(n)
  {
    PadText(n);
    if n >= 10 {
      assert NatText(n) == NatText(n / 10) + [DigitChar(n)];
    }
  }

  lemma ParseElapsedParts(d: string, h: nat, m: nat, sec: nat)
    requires AllDigits(d) && |d| >= 2 && h < 100 && m < 100 && sec < 100
    ensures ParseElapsed(d + " " + Fixed2(h) + ":" + Fixed2(m) + ":" + Fixed2(sec))
            == Some(DigitsValue(d) * MsPerDay + h * MsPerHour + m * MsPerMinute + sec * MsPerSecond)
  {
    Regroup(d, Fixed2(h), Fixed2(m), Fixed2(sec));
    TwoDigits(h);
    TwoDigits(m);
    TwoDigits(sec);
    ParseElapsedOf(d, Fixed2(h), Fixed2(m), Fixed2(sec));
  }

  /** "D… HH:MM:SS" with digit pairs in place reads back field by field. */
  lemma ParseElapsedOf(d: string, a: string, b: string, c: string)
    requires AllDigits(d) && |d| >= 2 && |a| == 2 && |b| == 2 && |c| == 2
    requires Digits2At(a, 0) && Digits2At(b, 0) && Digits2At(c, 0)
    ensures ParseElapsed(d + (" " + a + ":" + b + ":" + c))
            == Some(DigitsValue(d) * MsPerDay + Value2(a[0], a[1]) * MsPerHour
                    + Value2(b[0], b[1]) * MsPerMinute + Value2(c[0], c[1]) * MsPerSecond)
  {
    var tail := " " + a + ":" + b + ":" + c;
    ElapsedTailAt(a, b, c);
    var s := d + tail;
    assert s[..|s| - 9] == d && s[|s| - 9..] == tail;
    assert ParseElapsed(s) == Some(DigitsValue(d) * MsPerDay + Value2(tail[1], tail[2]) * MsPerHour
                                   + Value2(tail[4], tail[5]) * MsPerMinute + Value2(tail[7], tail[8]) * MsPerSecond);
  }

  lemma ElapsedTailAt(a: string, b: string, c: string)
    requires |a| == 2 && |b| == 2 && |c| == 2
    ensures var tail := " " + a + ":" + b + ":" + c;
      && |tail| == 9 && tail[0] == ' ' && tail[3] == ':' && tail[6] == ':'
      && tail[1] == a[0] && tail[2] == a[1] && tail[4] == b[0] && tail[5] == b[1]
      && tail[7] == c[0] && tail[8] == c[1]
  {
  }

  lemma Regroup(d: string, a: string, b: string, c: string)
    ensures d + " " + a + ":" + b + ":" + c == d + (" " + a + ":" + b + ":" + c)
  {
  }

  /** The duration string of a non-negative span reads back as the span
      truncated to whole seconds. */
  lemma ElapsedTextRoundTrip(span: int)
    requires span >= 0
    ensures ParseElapsed(ElapsedText(span)) == Some(span - span % MsPerSecond)
  {
    var e := ElapsedOf(span);
    ElapsedOfBounds(span);
    ElapsedWhole(span);
    ElapsedLayout(span);
    ParseElapsedParts(Pad(e.days), e.hours, e.minutes, e.seconds);
  }

  /** The fields of a span add up to the span cut to whole seconds. */
  lemma ElapsedWhole(span: int)
    requires span >= 0
    ensures var e := ElapsedOf(span);
      e.days * MsPerDay + e.hours * MsPerHour + e.minutes * MsPerMinute + e.seconds * MsPerSecond
        == span - span % MsPerSecond
  {
    var e := ElapsedOf(span);
    ElapsedOfBounds(span);
    WholeSecondFloor(span, e.days * 86400 + e.hours * 3600 + e.minutes * 60 + e.seconds);
  }

  /** The duration text of a span: the padded days, then the two-digit
      clock fields. */
  lemma ElapsedLayout(span: int)
    requires span >= 0
    ensures var e := ElapsedOf(span);
      && ElapsedText(span) == Pad(e.days) + " " + Fixed2(e.hours) + ":" + Fixed2(e.minutes) + ":" + Fixed2(e.seconds)
      && AllDigits(Pad(e.days)) && |Pad(e.days)| >= 2 && DigitsValue(Pad(e.days)) == e.days
  {
    var e := ElapsedOf(span);
    ElapsedOfBounds(span);
    PadTwoDigits(e.hours);
    PadTwoDigits(e.minutes);
    PadTwoDigits(e.seconds);
    PadValue(e.days);
    PadText(e.days);
  }

  /** A multiple of a second at most one second below a span is the span
      cut to whole seconds. */
  lemma WholeSecondFloor(span: int, secs: int)
    requires secs * MsPerSecond <= span < secs * MsPerSecond + MsPerSecond
    ensures secs * MsPerSecond == span - span % MsPerSecond
  {
  }

  lemma ParseDateExampleStart()
    ensures ParseDate("2024-01-01T00:00:00Z") == Some(1_704_067_200_000)
  {
    var s := "2024-01-01T00:00:00Z";
    assert DateTimeShape(s);
    var f := DateTime(Civil(2024, 1, 1), 0, 0, 0, 0);
    assert Value4(s[0], s[1], s[2], s[3]) == 2024;
    assert ValidDateTime(f);
    assert DaysBeforeYear(2024) == 19723;
  }

  lemma ParseDateExampleEnd()
    ensures ParseDate("2024-01-03T05:30:15Z") == Some(1_704_259_815_000)
  {
    var s := "2024-01-03T05:30:15Z";
    assert DateTimeShape(s);
    var f := DateTime(Civil(2024, 1, 3), 5, 30, 15, 0);
    assert Value4(s[0], s[1], s[2], s[3]) == 2024;
    assert ValidDateTime(f);
    assert DaysBeforeYear(2024) == 19723;
  }

  /** The example of the source's documentation: from 2024-01-01T00:00:00Z to
      2024-01-03T05:30:15Z the duration reads "02 05:30:15". */
  lemma CalculateDurationExample()
    ensures CalculateDuration(Str("2024-01-01T00:00:00Z"), Str("2024-01-03T05:30:15Z")) == "02 05:30:15"
  {
    ParseDateExampleStart();
    ParseDateExampleEnd();
    ElapsedExample();
  }

  lemma ElapsedExample()
    ensures ElapsedText(192_615_000) == "02 05:30:15"
  {
    ElapsedExampleFields();
    ElapsedLayout(192_615_000);
    ElapsedExampleDigits();
  }

  lemma ElapsedExampleFields()
    ensures ElapsedOf(192_615_000) == Elapsed(2, 5, 30, 15)
  {
  }

  lemma ElapsedExampleDigits()
    ensures Pad(2) == "02" && Fixed2(5) == "05" && Fixed2(30) == "30" && Fixed2(15) == "15"
  {
    PadTwoDigits(2);
    assert Fixed2(2) == "02";
  }

  /** Spans are not guarded: one second backwards prints "0-1 0-1:0-1:0-1". */
  lemma NegativeSpanText()
    ensures ElapsedText(-1000) == "0-1 0-1:0-1:0-1"
  {
    assert ElapsedOf(-1000) == Elapsed(-1, -1, -1, -1);
  }

  // ------------------------------------------------------------ field maps

  /** bryntumTaskFieldsToServiceNowFields: Gantt task field names and the
      ServiceNow project-task columns they are written to. */
  const TaskFieldMap: map<string, string> := map[
    "name" := "short_description",
    "startDate" := "start_date",
    "endDate" := "end_date",
    "parentId" := "parent",
    "duration" := "duration",
    "parentIndex" := "wbs_order",
    "percentDone" := "percent_complete",
    "note" := "description",
    "status" := "status",
    "override_status" := "override_status"
  ]

  /** bryntumDependencyFieldsToServiceNowFields. */
  const DependencyFieldMap: map<string, string> := map[
    "fromEvent" := "parent",
    "toEvent" := "child"
  ]

  /** No two Gantt fields are written to the same column, so a ServiceNow
      column names at most one Gantt field. */
  lemma FieldMapsInjective()
    ensures forall a, b :: a in TaskFieldMap && b in TaskFieldMap && TaskFieldMap[a] == TaskFieldMap[b] ==> a == b
    ensures forall a, b :: (a in DependencyFieldMap && b in DependencyFieldMap
                            && DependencyFieldMap[a] == DependencyFieldMap[b]) ==> a == b
  {
  }

  // ---------------------------------------------------------- calcStartDate

  datatype DurationUnit = Millisecond | Second | Minute | Hour | Day | Week | Month | Quarter | Year

  /** The switch of calcStartDate: an omitted unit means "day"; any other
      value that is not one of the nine names is rejected. */
  function DurationUnitOf(unit: Value): Option<DurationUnit> {
    match unit
    case Undefined => Some(Day)
    case Str(s) =>
      if s == "millisecond" then Some(Millisecond)
      else if s == "second" then Some(Second)
      else if s == "minute" then Some(Minute)
      else if s == "hour" then Some(Hour)
      else if s == "day" then Some(Day)
      else if s == "week" then Some(Week)
      else if s == "month" then Some(Month)
      else if s == "quarter" then Some(Quarter)
      else if s == "year" then Some(Year)
      else None
    case _ => None
  }

  /** The unit names calcStartDate accepts. */
  function DurationUnitName(u: DurationUnit): string {
    match u
    case Millisecond => "millisecond"
    case Second => "second"
    case Minute => "minute"
    case Hour => "hour"
    case Day => "day"
    case Week => "week"
    case Month => "month"
    case Quarter => "quarter"
    case Year => "year"
  }

  /** MakeDay(year, month, date): the day number of `date` counted from the
      first of the month; the month index is 0-based and may run outside
      0..11, carrying into the year. */
  function MakeDay(year: int, month: int, date: int): int {
    DaysFromCivil(Civil(year + month / 12, month % 12 + 1, 1)) + date - 1
  }

  /** The UTC field calcStartDate's getter reads for a unit: the
      millisecond, second, minute or hour, the day of the month (day and
      week), the 0-based month (month and quarter) or the full year. */
  function FieldOf(f: DateTime, u: DurationUnit): int {
    match u
    case Millisecond => f.millisecond
    case Second => f.second
    case Minute => f.minute
    case Hour => f.hour
    case Day => f.date.day
    case Week => f.date.day
    case Month => f.date.month - 1
    case Quarter => f.date.month - 1
    case Year => f.date.year
  }

  /** How many of the field's units one duration unit is: 7 days to the
      week, 3 months to the quarter. */
  function Factor(u: DurationUnit): real {
    match u
    case Week => 7.0
    case Quarter => 3.0
    case _ => 1.0
  }

  /** The time value after the matching UTC setter stores v in the field
      FieldOf(f, u): the other fields are kept and overflow carries (a day
      past the end of its month runs into the next; a month index outside
      0..11 carries into the year, as MakeDay does). */
  function SetField(f: DateTime, u: DurationUnit, v: int): int
    requires ValidDateTime(f)
  {
    match u
    case Millisecond => TimeOfDateTime(f.(millisecond := v))
    case Second => TimeOfDateTime(f.(second := v))
    case Minute => TimeOfDateTime(f.(minute := v))
    case Hour => TimeOfDateTime(f.(hour := v))
    case Day => TimeOfDateTime(f.(date := f.date.(day := v)))
    case Week => TimeOfDateTime(f.(date := f.date.(day := v)))
    case Month => MakeDay(f.date.year, v, f.date.day) * MsPerDay + TimeInDay(f)
    case Quarter => MakeDay(f.date.year, v, f.date.day) * MsPerDay + TimeInDay(f)
    case Year => TimeOfDateTime(f.(date := f.date.(year := v)))
  }

  /** The time value after the setter call of calcStartDate on a date with
      UTC fields f: the field named by the unit is set to its current value
      minus n units (truncated toward zero), then clipped to the Date
      range. */
  function ShiftFields(f: DateTime, n: real, u: DurationUnit): Option<TimeValue>
    requires ValidDateTime(f)
  {
    TimeClip(SetField(f, u, Trunc(FieldOf(f, u) as real - n * Factor(u))))
  }

  /** calcStartDate(endDate, duration, durationUnit): the ISO string of the
      end date moved back by the duration. The unit is checked first; an
      invalid date, a duration that is not a number or a result outside the
      Date range makes toISOString throw. */
  function CalcStartDate(endDate: Value, duration: Value, unit: Value): (r: Result<string>)
    ensures r == Err(InvalidDurationUnit) <==> DurationUnitOf(unit).None?
    ensures r.Err? ==> r.error == InvalidDurationUnit || r.error == InvalidDate
    ensures (NewDate(endDate).None? || ToNumber(duration).None?) && DurationUnitOf(unit).Some?
            ==> r == Err(InvalidDate)
  {
    match DurationUnitOf(unit)
    case None => Err(InvalidDurationUnit)
    case Some(u) =>
      match (NewDate(endDate), ToNumber(duration))
      case (Some(t), Some(n)) => StartBefore(t, n, u)
      case _ => Err(InvalidDate)
  }

  /** toISOString of the instant t moved back n units; it throws (an
      invalid date) when the result leaves the Date range. */
  function StartBefore(t: TimeValue, n: real, u: DurationUnit): (r: Result<string>)
    ensures r.Err? ==> r.error == InvalidDate
  {
    match ShiftFields(DateTimeOf(t), n, u)
    case None => Err(InvalidDate)
    case Some(start) => Ok(IsoString(start))
  }

  /** The length of the units that are a fixed number of milliseconds. */
  function FixedSpan(u: DurationUnit): int
    requires u in {Millisecond, Second, Minute, Hour, Day, Week}
  {
    match u
    case Millisecond => 1
    case Second => MsPerSecond
    case Minute => MsPerMinute
    case Hour => MsPerHour
    case Day => MsPerDay
    case Week => 7 * MsPerDay
  }

  /** For units up to a week, moving back n units is subtracting n times the
      unit's length (days and weeks too: every UTC day has 86 400 000 ms). */
  lemma ShiftFixed(f: DateTime, n: int, u: DurationUnit)
    requires ValidDateTime(f)
    requires u in {Millisecond, Second, Minute, Hour, Day, Week}
    ensures ShiftFields(f, n as real, u) == TimeClip(TimeOfDateTime(f) - n * FixedSpan(u))
  {
    var k := if u == Week then 7 * n else n;
    ShiftBy(f, n, u, k);
    SetFieldBack(f, u, k);
  }

  /** Moving back n units moves the unit's field back by k, a whole number. */
  lemma ShiftBy(f: DateTime, n: int, u: DurationUnit, k: int)
    requires ValidDateTime(f)
    requires k as real == n as real * Factor(u)
    ensures ShiftFields(f, n as real, u) == TimeClip(SetField(f, u, FieldOf(f, u) - k))
  {
    TruncDifference(FieldOf(f, u), k);
  }

  /** Setting a clock field or the day of the month k lower moves the time
      value back by k of that field's units. */
  lemma SetFieldBack(f: DateTime, u: DurationUnit, k: int)
    requires ValidDateTime(f)
    requires u in {Millisecond, Second, Minute, Hour, Day, Week}
    ensures SetField(f, u, FieldOf(f, u) - k) == TimeOfDateTime(f) - k * (if u == Week then MsPerDay else FixedSpan(u))
  {
  }

  lemma TruncDifference(a: int, b: int)
    ensures Trunc(a as real - b as real) == a - b
  {
  }

  /** calcStartDate with a whole number of fixed-length units gives the ISO
      string of endDate minus n units, which the Date constructor reads back
      as that instant (four-digit years). */
  lemma CalcStartDateFixed(endDate: Value, t: TimeValue, n: int, u: DurationUnit)
    requires NewDate(endDate) == Some(t)
    requires u in {Millisecond, Second, Minute, Hour, Day, Week}
    ensures CalcStartDate(endDate, Num(n as real), Str(DurationUnitName(u)))
            == match TimeClip(t - n * FixedSpan(u))
               case None => Err(InvalidDate)
               case Some(start) => Ok(IsoString(start))
  {
    CalcStartDateOf(endDate, t, n as real, u);
    StartBeforeFixed(t, n, u);
  }

  lemma StartBeforeFixed(t: TimeValue, n: int, u: DurationUnit)
    requires u in {Millisecond, Second, Minute, Hour, Day, Week}
    ensures StartBefore(t, n as real, u)
            == match TimeClip(t - n * FixedSpan(u))
               case None => Err(InvalidDate)
               case Some(start) => Ok(IsoString(start))
  {
    var f := DateTimeOf(t);
    ShiftFixed(f, n, u);
    assert ShiftFields(f, n as real, u) == TimeClip(t - n * FixedSpan(u));
  }

  /** Every unit name selects its own unit. */
  lemma DurationUnitNames(u: DurationUnit)
    ensures DurationUnitOf(Str(DurationUnitName(u))) == Some(u)
  {
  }

  lemma CalcStartDateOf(endDate: Value, t: TimeValue, n: real, u: DurationUnit)
    requires NewDate(endDate) == Some(t)
    ensures CalcStartDate(endDate, Num(n), Str(DurationUnitName(u))) == StartBefore(t, n, u)
  {
    DurationUnitNames(u);
    assert ToNumber(Num(n)) == Some(n);
  }

  /** A missing unit is read as "day". */
  lemma CalcStartDateDefaultUnit(endDate: Value, duration: Value)
    ensures CalcStartDate(endDate, duration, Undefined) == CalcStartDate(endDate, duration, Str("day"))
  {
    assert DurationUnitOf(Str("day")) == Some(Day);
    CalcStartDateIn(endDate, duration, Undefined, Day);
    CalcStartDateIn(endDate, duration, Str("day"), Day);
  }

  /** calcStartDate once the unit is known. */
  lemma CalcStartDateIn(endDate: Value, duration: Value, unit: Value, u: DurationUnit)
    requires DurationUnitOf(unit) == Some(u)
    ensures CalcStartDate(endDate, duration, unit)
            == match (NewDate(endDate), ToNumber(duration))
               case (Some(t), Some(n)) => StartBefore(t, n, u)
               case _ => Err(InvalidDate)
  {
  }

  /** The duration enters calcStartDate only through Number(duration). */
  lemma CalcStartDateSameNumber(endDate: Value, d1: Value, d2: Value, unit: Value)
    requires ToNumber(d1) == ToNumber(d2)
    ensures CalcStartDate(endDate, d1, unit) == CalcStartDate(endDate, d2, unit)
  {
  }

  /** A duration sent as the decimal text of a whole number gives the same
      start date as the number itself. */
  lemma CalcStartDateIntegerText(endDate: Value, n: int, unit: Value)
    ensures CalcStartDate(endDate, Str(IntText(n)), unit) == CalcStartDate(endDate, Num(n as real), unit)
  {
    StringToNumberIntText(n);
    CalcStartDateSameNumber(endDate, Str(IntText(n)), Num(n as real), unit);
  }

  /** "week" is seven days, for any duration. */
  lemma WeekIsSevenDays(f: DateTime, n: real)
    requires ValidDateTime(f)
    ensures ShiftFields(f, n, Week) == ShiftFields(f, 7.0 * n, Day)
  {
    var x := f.date.day as real - 7.0 * n;
    assert FieldOf(f, Week) as real - n * Factor(Week) == x;
    assert FieldOf(f, Day) as real - 7.0 * n * Factor(Day) == x;
  }

  /** "quarter" is three months, for any duration. */
  lemma QuarterIsThreeMonths(f: DateTime, n: real)
    requires ValidDateTime(f)
    ensures ShiftFields(f, n, Quarter) == ShiftFields(f, 3.0 * n, Month)
  {
    var x := (f.date.month - 1) as real - 3.0 * n;
    assert FieldOf(f, Quarter) as real - n * Factor(Quarter) == x;
    assert FieldOf(f, Month) as real - 3.0 * n * Factor(Month) == x;
    var v := Trunc(x);
    assert SetField(f, Quarter, v) == SetField(f, Month, v);
  }

  /** The calendar date k months after c, keeping the day of the month. */
  function AddMonths(c: Civil, k: int): (r: Civil)
    requires 1 <= c.month <= 12
    ensures 1 <= r.month <= 12 && r.day == c.day
    ensures r.year * 12 + r.month == c.year * 12 + c.month + k
  {
    var index := c.year * 12 + c.month - 1 + k;
    Civil(index / 12, index % 12 + 1, c.day)
  }

  /** Moving back n months keeps the day of the month (when it exists in
      every month) and the time of day: the result is the instant whose
      fields are f's with the date n months earlier. */
  lemma ShiftMonths(f: DateTime, n: int)
    requires ValidDateTime(f) && f.date.day <= 28
    ensures var g := f.(date := AddMonths(f.date, -n));
      && ValidDateTime(g)
      && ShiftFields(f, n as real, Month) == TimeClip(TimeOfDateTime(g))
  {
    var c := AddMonths(f.date, -n);
    ShiftBy(f, n, Month, n);
    assert FieldOf(f, Month) - n == f.date.month - 1 - n;
    MonthsBack(f, n);
    AtLeast28Days(c.year, c.month);
  }

  /** Storing a month index k lower carries into the year as AddMonths
      does. */
  lemma MonthsBack(f: DateTime, k: int)
    requires ValidDateTime(f)
    ensures SetField(f, Month, f.date.month - 1 - k) == TimeOfDateTime(f.(date := AddMonths(f.date, -k)))
  {
    var m := f.date.month - 1 - k;
    var c := Civil(f.date.year + m / 12, m % 12 + 1, f.date.day);
    CarryMonths(f.date.year, m);
    assert AddMonths(f.date, -k) == c;
    assert MakeDay(f.date.year, m, f.date.day) == DaysFromCivil(c);
  }

  lemma CarryMonths(y: int, k: int)
    ensures (y * 12 + k) / 12 == y + k / 12
    ensures (y * 12 + k) % 12 == k % 12
  {
    assert y * 12 + k == (y + k / 12) * 12 + k % 12;
  }

  lemma AtLeast28Days(y: int, m: int)
    requires 1 <= m <= 12
    ensures DaysInMonth(y, m) >= 28
  {
  }

  /** Moving back n years keeps month, day (when it exists in every year)
      and time of day: the result is the instant whose fields are f's with
      the year n smaller. */
  lemma ShiftYears(f: DateTime, n: int)
    requires ValidDateTime(f) && f.date.day <= 28
    ensures var g := f.(date := f.date.(year := f.date.year - n));
      && ValidDateTime(g)
      && ShiftFields(f, n as real, Year) == TimeClip(TimeOfDateTime(g))
  {
    TruncDifference(f.date.year, n);
    AtLeast28Days(f.date.year - n, f.date.month);
  }

  // ------------------------------------------------------- dependency types

  /** serviceNowDepTypeToBryntumDepType: ServiceNow's sub_type code to the
      Gantt's numeric dependency type. */
  function BryntumDepType(subType: string): (r: Result<int>)
    ensures r.Ok? <==> subType in {"fs", "ss", "ff", "sf"}
    ensures r.Err? ==> r.error == InvalidDependencyType
    ensures r.Ok? ==> 0 <= r.value <= 3
  {
    if subType == "fs" then Ok(2)
    else if subType == "ss" then Ok(0)
    else if subType == "ff" then Ok(1)
    else if subType == "sf" then Ok(3)
    else Err(InvalidDependencyType)
  }

  /** bryntumDepTypeToServiceNowDepType: the inverse mapping; only the
      numbers 0 to 3 are accepted (strict equality, so "2" is not). */
  function ServiceNowDepType(depType: Value): (r: Result<string>)
    ensures r.Ok? <==> depType in {Num(0.0), Num(1.0), Num(2.0), Num(3.0)}
    ensures r.Err? ==> r.error == InvalidDependencyType
  {
    if depType == Num(2.0) then Ok("fs")
    else if depType == Num(0.0) then Ok("ss")
    else if depType == Num(1.0) then Ok("ff")
    else if depType == Num(3.0) then Ok("sf")
    else Err(InvalidDependencyType)
  }

  /** The two mappings are inverse bijections between the four codes and the
      numbers 0 to 3. */
  lemma DepTypeRoundTrip(subType: string, k: int)
    ensures BryntumDepType(subType).Ok? ==>
              ServiceNowDepType(Num(BryntumDepType(subType).value as real)) == Ok(subType)
    ensures 0 <= k <= 3 ==> BryntumDepType(ServiceNowDepType(Num(k as real)).value) == Ok(k)
  {
  }

  // -------------------------------------------------------------- lag codec

  /** The lag units of the Gantt, coarser in declaration order. */
  datatype LagUnit = Milliseconds | Seconds | Minutes | Hours | Days | Weeks | Months | Years

  /** Length of a unit in milliseconds; a month is 30.44 days and a year
      365.25 days. */
  function UnitMillis(u: LagUnit): (r: int)
    ensures r >= 1
  {
    match u
    case Milliseconds => 1
    case Seconds => 1000
    case Minutes => 60_000
    case Hours => 3_600_000
    case Days => 86_400_000
    case Weeks => 604_800_000
    case Months => 2_630_016_000
    case Years => 31_557_600_000
  }

  function Rank(u: LagUnit): nat {
    match u
    case Milliseconds => 0
    case Seconds => 1
    case Minutes => 2
    case Hours => 3
    case Days => 4
    case Weeks => 5
    case Months => 6
    case Years => 7
  }

  /** The next coarser unit (Years has none). */
  function Coarser(u: LagUnit): (v: LagUnit)
    requires u != Years
    ensures Rank(v) == Rank(u) + 1
  {
    match u
    case Milliseconds => Seconds
    case Seconds => Minutes
    case Minutes => Hours
    case Hours => Days
    case Days => Weeks
    case Weeks => Months
    case Months => Years
  }

  /** Units are longer the coarser they are. */
  lemma UnitMillisMonotone(u: LagUnit, v: LagUnit)
    ensures Rank(u) < Rank(v) <==> UnitMillis(u) < UnitMillis(v)
  {
  }

  function ShortName(u: LagUnit): string {
    match u
    case Milliseconds => "ms"
    case Seconds => "s"
    case Minutes => "m"
    case Hours => "h"
    case Days => "d"
    case Weeks => "w"
    case Months => "M"
    case Years => "y"
  }

  function LongName(u: LagUnit): string {
    match u
    case Milliseconds => "millisecond"
    case Seconds => "second"
    case Minutes => "minute"
    case Hours => "hour"
    case Days => "day"
    case Weeks => "week"
    case Months => "month"
    case Years => "year"
  }

  /** The switch of bryntumGanttDepLagToServiceNowDepLag: short or long unit
      names, anything else rejected. */
  function LagUnitOf(v: Value): Option<LagUnit> {
    match v
    case Str(s) =>
      if s == "ms" || s == "millisecond" then Some(Milliseconds)
      else if s == "s" || s == "second" then Some(Seconds)
      else if s == "m" || s == "minute" then Some(Minutes)
      else if s == "h" || s == "hour" then Some(Hours)
      else if s == "d" || s == "day" then Some(Days)
      else if s == "w" || s == "week" then Some(Weeks)
      else if s == "M" || s == "month" then Some(Months)
      else if s == "y" || s == "year" then Some(Years)
      else None
    case _ => None
  }

  lemma LagUnitNames(u: LagUnit)
    ensures LagUnitOf(Str(ShortName(u))) == Some(u)
    ensures LagUnitOf(Str(LongName(u))) == Some(u)
  {
  }

  /** A lag as the Gantt holds it: a magnitude (a number or NaN) and a unit. */
  datatype GanttLag = GanttLag(lag: Value, lagUnit: LagUnit)

  /** The unit serviceNowDepLagToBryntumDepLag picks for a span of t ms. */
  function UnitFor(t: int): LagUnit {
    if t < UnitMillis(Seconds) then Milliseconds
    else if t < UnitMillis(Minutes) then Seconds
    else if t < UnitMillis(Hours) then Minutes
    else if t < UnitMillis(Days) then Hours
    else if t < UnitMillis(Weeks) then Days
    else if t < UnitMillis(Months) then Weeks
    else if t < UnitMillis(Years) then Months
    else Years
  }

  /** The chosen unit is the coarsest one that fits into the span at least
      once; spans under a second (negative ones included) use milliseconds. */
  lemma UnitForCoarsest(t: int, v: LagUnit)
    ensures t >= 1 ==> UnitMillis(UnitFor(t)) <= t
    ensures UnitFor(t) != Years ==> t < UnitMillis(Coarser(UnitFor(t)))
    ensures UnitMillis(v) <= t && v != Milliseconds ==> Rank(v) <= Rank(UnitFor(t))
    ensures t < 1000 ==> UnitFor(t) == Milliseconds
  {
    UnitMillisMonotone(v, UnitFor(t));
  }

  /** Math.round(t / size * 100) / 100: t in the unit, to two decimals. */
  function InUnit(t: int, u: LagUnit): (r: Value)
    ensures r.Num?
  {
    Num(Round(Num(PerUnit(t as real, u) * 100.0)).n / 100.0)
  }

  /** t milliseconds in units, written unit by unit so that every case is a
      division by a constant. */
  function PerUnit(t: real, u: LagUnit): real {
    match u
    case Milliseconds => t
    case Seconds => t / 1000.0
    case Minutes => t / 60_000.0
    case Hours => t / 3_600_000.0
    case Days => t / 86_400_000.0
    case Weeks => t / 604_800_000.0
    case Months => t / 2_630_016_000.0
    case Years => t / 31_557_600_000.0
  }

  lemma PerUnitScale(t: real, u: LagUnit)
    ensures PerUnit(t, u) == t / UnitMillis(u) as real
  {
  }

  /** The magnitude in a unit is the exact quotient t / UnitMillis(u)
      (see PerUnitScale) to within half a hundredth. */
  lemma InUnitError(t: int, u: LagUnit)
    ensures -0.005 < InUnit(t, u).n - PerUnit(t as real, u) <= 0.005
  {
    var q := Round(Num(PerUnit(t as real, u) * 100.0)).n;
    assert InUnit(t, u).n == q / 100.0;
  }

  /** serviceNowDepLagToBryntumDepLag: a GlideDuration, read as a date after
      the epoch, to a magnitude in the coarsest fitting unit. The zero
      duration is recognised by its text; unreadable text gives NaN years. */
  function BryntumDepLag(depLag: string): (r: GanttLag)
    ensures depLag == "1970-01-01 00:00:00" ==> r == GanttLag(Num(0.0), Days)
    ensures depLag != "1970-01-01 00:00:00" && ParseDate(depLag).None? ==> r == GanttLag(NaN, Years)
  {
    if depLag == "1970-01-01 00:00:00" then GanttLag(Num(0.0), Days)
    else
      match ParseDate(depLag)
      case None => GanttLag(NaN, Years)
      case Some(t) => GanttLag(InUnit(t, UnitFor(t)), UnitFor(t))
  }

  /** `0 + v`: string concatenation for a string, numeric addition otherwise. */
  function ZeroPlus(v: Value): Value {
    match v
    case Str(s) => Str("0" + s)
    case _ => match ToNumber(v) case None => NaN case Some(x) => Num(x)
  }

  /** The GlideDuration text of a time value: the UTC date and time fields
      as YYYY-MM-DD HH:MM:SS, the year unpadded. */
  function LagText(t: int): string {
    var f := DateTimeOf(t);
    IntText(f.date.year) + LagRest(f)
  }

  /** "-MM-DD HH:MM:SS", the part of a GlideDuration after the year: each
      field zero-padded to two digits. */
  function LagRest(f: DateTime): string
    requires ValidDateTime(f)
  {
    ['-', DigitChar(f.date.month / 10), DigitChar(f.date.month),
     '-', DigitChar(f.date.day / 10), DigitChar(f.date.day),
     ' ', DigitChar(f.hour / 10), DigitChar(f.hour),
     ':', DigitChar(f.minute / 10), DigitChar(f.minute),
     ':', DigitChar(f.second / 10), DigitChar(f.second)]
  }

  const InvalidLagText: string := "NaN-NaN-NaN NaN:NaN:NaN"

  /** bryntumGanttDepLagToServiceNowDepLag: the lag in milliseconds, added
      to the epoch and written as a date and time. */
  function ServiceNowDepLag(lag: Value, lagUnit: Value): (r: Result<string>)
    ensures r.Err? <==> LagUnitOf(lagUnit).None?
    ensures r.Err? ==> r.error == InvalidLagUnit
  {
    match LagUnitOf(lagUnit)
    case None => Err(InvalidLagUnit)
    case Some(u) => Ok(LagIn(lag, u))
  }

  /** The GlideDuration of a lag in a known unit. */
  function LagIn(lag: Value, u: LagUnit): string {
    match LagTarget(lag, u)
    case None => InvalidLagText
    case Some(t) => LagText(t)
  }

  /** The time value of `new Date(0 + durationMillis)`. */
  function LagTarget(lag: Value, u: LagUnit): Option<TimeValue> {
    if u == Milliseconds then NewDate(ZeroPlus(lag))
    else match ToNumber(lag) case None => None case Some(x) => TimeClipReal(InMillis(x, u))
  }

  /** x units in milliseconds, written unit by unit so that every case is a
      product with a constant. */
  function InMillis(x: real, u: LagUnit): real {
    match u
    case Milliseconds => x
    case Seconds => x * 1000.0
    case Minutes => x * 60_000.0
    case Hours => x * 3_600_000.0
    case Days => x * 86_400_000.0
    case Weeks => x * 604_800_000.0
    case Months => x * 2_630_016_000.0
    case Years => x * 31_557_600_000.0
  }

  lemma InMillisScale(x: real, u: LagUnit)
    ensures InMillis(x, u) == x * UnitMillis(u) as real
  {
  }

  lemma LagTextParts(t: int)
    requires 1000 <= DateTimeOf(t).date.year <= 9999
    ensures LagText(t) == Fixed4(DateTimeOf(t).date.year) + LagRest(DateTimeOf(t))
  {
    NatTextFourDigits(DateTimeOf(t).date.year);
  }

  lemma ReadLagFields(s: string, f: DateTime)
    requires ValidDateTime(f) && 0 <= f.date.year <= 9999
    requires s == Fixed4(f.date.year) + LagRest(f)
    ensures |s| == 19 && DateTimeShape(s)
    ensures Value4(s[0], s[1], s[2], s[3]) == f.date.year
    ensures Value2(s[5], s[6]) == f.date.month && Value2(s[8], s[9]) == f.date.day
    ensures Value2(s[11], s[12]) == f.hour && Value2(s[14], s[15]) == f.minute
    ensures Value2(s[17], s[18]) == f.second
  {
    var y := Fixed4(f.date.year);
    var rest := LagRest(f);
    assert s[0] == y[0] && s[1] == y[1] && s[2] == y[2] && s[3] == y[3];
    assert s[4] == rest[0] && s[5] == rest[1] && s[6] == rest[2] && s[7] == rest[3];
    assert s[8] == rest[4] && s[9] == rest[5] && s[10] == rest[6] && s[11] == rest[7];
    assert s[12] == rest[8] && s[13] == rest[9] && s[14] == rest[10] && s[15] == rest[11];
    assert s[16] == rest[12] && s[17] == rest[13] && s[18] == rest[14];
    Fixed4Value(f.date.year);
    TwoDigits(f.date.month);
    TwoDigits(f.date.day);
    TwoDigits(f.hour);
    TwoDigits(f.minute);
    TwoDigits(f.second);
  }

  lemma ParseLagFields(s: string, f: DateTime)
    requires ValidDateTime(f) && 0 <= f.date.year <= 9999
    requires s == Fixed4(f.date.year) + LagRest(f)
    ensures ParseDate(s) == Some(TimeOfDateTime(f.(millisecond := 0)))
  {
    ReadLagFields(s, f);
    var g := f.(millisecond := 0);
    FourDigitYearsInRange(g);
    var h := DateTime(
        Civil(Value4(s[0], s[1], s[2], s[3]), Value2(s[5], s[6]), Value2(s[8], s[9])),
        Value2(s[11], s[12]), Value2(s[14], s[15]), Value2(s[17], s[18]), 0);
    assert h == g;
  }

  /** A GlideDuration with a four-digit year reads back as the time value
      it was written from, cut to whole seconds. */
  lemma LagTextRoundTrip(t: int)
    requires 1000 <= DateTimeOf(t).date.year <= 9999
    ensures ParseDate(LagText(t)) == Some(t - t % MsPerSecond)
  {
    var f := DateTimeOf(t);
    LagTextParts(t);
    ParseLagFields(LagText(t), f);
    WholeSeconds(f);
    assert TimeOfDateTime(f.(millisecond := 0)) == t - t % MsPerSecond;
  }

  lemma WholeSeconds(f: DateTime)
    requires ValidDateTime(f)
    ensures TimeOfDateTime(f) % MsPerSecond == f.millisecond
    ensures TimeOfDateTime(f.(millisecond := 0)) == TimeOfDateTime(f) - f.millisecond
  {
    var secs := DaysFromCivil(f.date) * 86400 + f.hour * 3600 + f.minute * 60 + f.second;
    assert TimeOfDateTime(f) == secs * 1000 + f.millisecond;
    WithinSecond(secs, f.millisecond);
  }

  lemma WithinSecond(secs: int, ms: int)
    requires 0 <= ms < 1000
    ensures (secs * 1000 + ms) % MsPerSecond == ms
  {
  }

  /** The years of the non-negative time values before 10000-01-01. */
  const YearTenThousand: int := 253_402_300_800_000

  lemma YearsOfLags(t: int)
    requires 0 <= t < YearTenThousand
    ensures 1970 <= DateTimeOf(t).date.year <= 9999
  {
    var f := DateTimeOf(t);
    assert DaysBeforeYear(1970) == 0;
    assert DaysBeforeYear(10000) == 2_932_897;
    DaysBeforeNextYear(f.date.year);
    var z := DaysFromCivil(f.date);
    assert z == t / MsPerDay;
    assert DaysBeforeYear(f.date.year) <= z < DaysBeforeYear(f.date.year + 1);
    YearOfDayUnique(z, f.date.year);
    YearOfDayBetween(z, 1970, 10000);
  }

  /** A span of at least one unit and less than one of the next coarser
      unit is expressed in that unit. */
  lemma UnitForOf(u: LagUnit, t: int)
    requires UnitMillis(u) <= t
    requires u != Years ==> t < UnitMillis(Coarser(u))
    ensures UnitFor(t) == u
  {
  }

  /** A whole number of units is expressed exactly. */
  lemma InUnitExact(n: int, u: LagUnit)
    ensures InUnit(n * UnitMillis(u), u) == Num(n as real)
  {
    var k := UnitMillis(u);
    assert PerUnit((n * k) as real, u) == n as real by {
      PerUnitScale((n * k) as real, u);
      CastProduct(n, k);
      DivideProduct(n as real, k as real);
    }
    assert n as real * 100.0 == (n * 100) as real;
    assert ((n * 100) as real + 0.5).Floor == n * 100;
  }

  lemma CastProduct(a: int, b: int)
    ensures (a * b) as real == a as real * b as real
  {
  }

  lemma DivideProduct(a: real, b: real)
    requires b != 0.0
    ensures a * b / b == a
  {
  }

  lemma ParseDateZeroLag()
    ensures ParseDate("1970-01-01 00:00:00") == Some(0)
  {
    var s := "1970-01-01 00:00:00";
    assert DateTimeShape(s);
    assert Value4(s[0], s[1], s[2], s[3]) == 1970;
    assert DaysBeforeYear(1970) == 0;
  }

  /** A whole number n of a unit other than milliseconds, below one of the
      next coarser unit and before the year 10000, survives the trip to
      ServiceNow and back exactly, under either name of the unit. */
  lemma LagRoundTrip(n: int, u: LagUnit, name: string)
    requires name == ShortName(u) || name == LongName(u)
    requires u != Milliseconds && n >= 1
    requires u != Years ==> n * UnitMillis(u) < UnitMillis(Coarser(u))
    requires n * UnitMillis(u) < YearTenThousand
    ensures ServiceNowDepLag(Num(n as real), Str(name)).Ok?
    ensures BryntumDepLag(ServiceNowDepLag(Num(n as real), Str(name)).value) == GanttLag(Num(n as real), u)
  {
    LagUnitNames(u);
    assert ServiceNowDepLag(Num(n as real), Str(name)) == Ok(LagIn(Num(n as real), u));
    LagInRoundTrip(n, u);
  }

  lemma LagInRoundTrip(n: int, u: LagUnit)
    requires u != Milliseconds && n >= 1
    requires u != Years ==> n * UnitMillis(u) < UnitMillis(Coarser(u))
    requires n * UnitMillis(u) < YearTenThousand
    ensures BryntumDepLag(LagIn(Num(n as real), u)) == GanttLag(Num(n as real), u)
  {
    var t := n * UnitMillis(u);
    assert UnitMillis(u) <= t by {
      ProductAtLeast(n, UnitMillis(u));
    }
    assert LagIn(Num(n as real), u) == LagText(t) by {
      EncodeWhole(n, u);
    }
    assert ParseDate(LagText(t)) == Some(t) by {
      WholeSecondUnits(n, u);
      WholeLagText(t);
    }
    assert BryntumDepLag(LagText(t)) == GanttLag(InUnit(t, UnitFor(t)), UnitFor(t)) by {
      DecodeLagText(LagText(t), t);
    }
    assert UnitFor(t) == u by {
      UnitForOf(u, t);
    }
    InUnitExact(n, u);
  }

  /** A lag of whole seconds before the year 10000 reads back exactly. */
  lemma WholeLagText(t: int)
    requires 0 <= t < YearTenThousand && t % MsPerSecond == 0
    ensures ParseDate(LagText(t)) == Some(t)
  {
    YearsOfLags(t);
    LagTextRoundTrip(t);
    assert t - t % MsPerSecond == t;
  }

  lemma ProductAtLeast(n: int, k: int)
    requires n >= 1 && k >= 1
    ensures k <= n * k
  {
    assert n * k == k + (n - 1) * k;
  }

  lemma WholeSecondUnits(n: int, u: LagUnit)
    requires u != Milliseconds
    ensures (n * UnitMillis(u)) % MsPerSecond == 0
  {
    var k := UnitMillis(u) / MsPerSecond;
    assert UnitMillis(u) == k * MsPerSecond;
    assert n * UnitMillis(u) == (n * k) * MsPerSecond;
    WholeSecondsMod(n * k);
  }

  lemma WholeSecondsMod(m: int)
    ensures (m * MsPerSecond) % MsPerSecond == 0
  {
  }

  lemma EncodeWhole(n: int, u: LagUnit)
    requires u != Milliseconds
    requires -MaxTime <= n * UnitMillis(u) <= MaxTime
    ensures LagTarget(Num(n as real), u) == Some(n * UnitMillis(u))
  {
    InMillisScale(n as real, u);
    ScaledWhole(n, UnitMillis(u));
  }

  lemma ScaledWhole(n: int, k: int)
    requires -MaxTime <= n * k <= MaxTime
    ensures TimeClipReal(n as real * k as real) == Some(n * k)
  {
    CastProduct(n, k);
    TruncInt(n * k);
  }

  lemma TruncInt(t: int)
    ensures Trunc(t as real) == t
  {
  }

  /** Text that reads back as a non-zero time value is decoded from that
      time value (only 0 has the zero text). */
  lemma DecodeLagText(s: string, t: int)
    requires ParseDate(s) == Some(t) && t != 0
    ensures BryntumDepLag(s) == GanttLag(InUnit(t, UnitFor(t)), UnitFor(t))
  {
    ParseDateZeroLag();
  }

  /** Every time value in the first second after the epoch is written as
      the zero GlideDuration. */
  lemma FirstSecondText(x: int)
    requires 0 <= x < 1000
    ensures LagText(x) == "1970-01-01 00:00:00"
  {
    EpochFields(x);
    EpochText(x);
  }

  lemma EpochFields(x: int)
    requires 0 <= x < 1000
    ensures DateTimeOf(x) == DateTime(Civil(1970, 1, 1), 0, 0, 0, x)
  {
    var f := DateTime(Civil(1970, 1, 1), 0, 0, 0, x);
    assert DaysBeforeYear(1970) == 0;
    assert TimeOfDateTime(f) == x;
    DateTimeRoundTrip(f);
  }

  lemma EpochText(x: int)
    requires 0 <= x < 1000
    ensures IntText(1970) + LagRest(DateTime(Civil(1970, 1, 1), 0, 0, 0, x)) == "1970-01-01 00:00:00"
  {
    EpochYear();
    EpochRest(x);
  }

  lemma EpochYear()
    ensures IntText(1970) == "1970"
  {
    NatTextFourDigits(1970);
    assert Fixed4(1970) == "1970";
  }

  lemma EpochRest(x: int)
    requires 0 <= x < 1000
    ensures LagRest(DateTime(Civil(1970, 1, 1), 0, 0, 0, x)) == "-01-01 00:00:00"
  {
  }

  lemma SubSecondTarget(x: int, u: LagUnit)
    requires 0 <= x < 1000 && (u != Milliseconds ==> x == 0)
    ensures LagTarget(Num(x as real), u) == Some(x)
  {
    TruncInt(x);
    if u != Milliseconds {
      EncodeWhole(x, u);
    }
  }

  /** Lags under one second are lost: a zero lag in any unit, and any whole
      number of milliseconds below a thousand, is written as the zero
      GlideDuration, which reads back as zero days. */
  lemma SubSecondLagLost(x: int, u: LagUnit)
    requires 0 <= x < 1000 && (u != Milliseconds ==> x == 0)
    ensures LagIn(Num(x as real), u) == "1970-01-01 00:00:00"
    ensures BryntumDepLag(LagIn(Num(x as real), u)) == GanttLag(Num(0.0), Days)
  {
    SubSecondLagText(x, u);
    ZeroLagText();
  }

  lemma SubSecondLagText(x: int, u: LagUnit)
    requires 0 <= x < 1000 && (u != Milliseconds ==> x == 0)
    ensures LagIn(Num(x as real), u) == "1970-01-01 00:00:00"
  {
    SubSecondTarget(x, u);
    LagInTarget(Num(x as real), u, x);
    FirstSecondText(x);
  }

  lemma LagInTarget(lag: Value, u: LagUnit, t: TimeValue)
    requires LagTarget(lag, u) == Some(t)
    ensures LagIn(lag, u) == LagText(t)
  {
  }

  /** The zero GlideDuration decodes as zero days. */
  lemma ZeroLagText()
    ensures BryntumDepLag("1970-01-01 00:00:00") == GanttLag(Num(0.0), Days)
  {
  }
}
