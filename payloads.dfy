/** The request bodies the sync handler sends to ServiceNow: the payloads
    that create a project task or a task relation, and the bodies that
    update them, built from the Gantt's changed records. */
module Payloads {
  import opened Wrappers
  import opened Js
  import opened Calendar
  import opened Utils

  predicate Injective(fields: map<string, string>) {
    forall a, b :: a in fields && b in fields && fields[a] == fields[b] ==> a == b
  }

  // ---------------------------------------------------------- create payloads

  /** The pm_project_task row posted for an added Gantt task: one field per
      column of the object the handler builds. */
  datatype TaskPayload = TaskPayload(
    shortDescription: Value, parent: Value, startDate: string, endDate: string, duration: string,
    project: Value, wbsOrder: Value, description: Value, status: Value, overrideStatus: Value)

  /** The row for an added task (the record without its phantom id).
      `project` is the configured project sys_id. Either date failing to
      format makes the record fail; the description defaults to "" and the
      override status to 0 when they are falsy. */
  function TaskCreatePayload(data: Record, project: Value): (r: Result<TaskPayload>)
    ensures r.Ok? <==> NewDate(Get(data, "startDate")).Some? && NewDate(Get(data, "endDate")).Some?
    ensures r.Err? ==> r.error == InvalidDate
  {
    var start :- FormatDateServiceNow(Get(data, "startDate"));
    var end :- FormatDateServiceNow(Get(data, "endDate"));
    var note := Get(data, "note");
    var overrideStatus := Get(data, "override_status");
    Ok(TaskPayload(
      Get(data, "name"), Get(data, "parentId"), start, end,
      CalculateDuration(Get(data, "startDate"), Get(data, "endDate")), project, Get(data, "parentIndex"),
      if Truthy(note) then note else Str(""), Get(data, "status"),
      if Truthy(overrideStatus) then ParseInt(ToString(overrideStatus)) else Num(0.0)))
  }

  /** A created task holds both dates formatted for ServiceNow and the
      elapsed time between them, the configured project, an empty
      description for a falsy note, and an integer (or NaN) override status
      that defaults to 0. */
  lemma TaskCreateFields(data: Record, project: Value)
    ensures var r := TaskCreatePayload(data, project);
      r.Ok? ==> && Ok(r.value.startDate) == FormatDateServiceNow(Get(data, "startDate"))
                && Ok(r.value.endDate) == FormatDateServiceNow(Get(data, "endDate"))
                && r.value.duration == CalculateDuration(Get(data, "startDate"), Get(data, "endDate"))
                && r.value.project == project
                && (!Truthy(Get(data, "note")) ==> r.value.description == Str(""))
                && (!Truthy(Get(data, "override_status")) ==> r.value.overrideStatus == Num(0.0))
                && (r.value.overrideStatus.NaN? || (r.value.overrideStatus.Num? && IsInteger(r.value.overrideStatus.n)))
  {
  }

  /** For dates with four-digit years the created task holds both dates as
      ServiceNow timestamps that read back as the same instants, and the
      elapsed time between them as its duration. */
  lemma TaskCreateDates(data: Record, project: Value, s: TimeValue, e: TimeValue)
    requires NewDate(Get(data, "startDate")) == Some(s) && 0 <= DateTimeOf(s).date.year <= 9999
    requires NewDate(Get(data, "endDate")) == Some(e) && 0 <= DateTimeOf(e).date.year <= 9999
    ensures var r := TaskCreatePayload(data, project);
      && r.Ok?
      && r.value.startDate == ServiceNowText(s) && ParseDate(r.value.startDate) == Some(s)
      && r.value.endDate == ServiceNowText(e) && ParseDate(r.value.endDate) == Some(e)
      && r.value.duration == ElapsedFrom(s, e)
  {
    TaskCreateFields(data, project);
    FormatDateServiceNowShape(Get(data, "startDate"), s);
    FormatDateServiceNowShape(Get(data, "endDate"), e);
    DurationOf(Get(data, "startDate"), Get(data, "endDate"), s, e);
  }

  lemma DurationOf(start: Value, end: Value, s: TimeValue, e: TimeValue)
    requires NewDate(start) == Some(s) && NewDate(end) == Some(e)
    ensures CalculateDuration(start, end) == ElapsedFrom(s, e)
  {
  }


  /** The planned_task_rel_planned_task row posted for an added dependency. */
  datatype DependencyPayload = DependencyPayload(parent: Value, child: Value, subType: string, lag: string)

  /** The row for an added Gantt dependency: predecessor, successor, and
      the type and lag converted by the codecs, whose errors make the record
      fail (the type is converted first). */
  function DependencyCreatePayload(data: Record): (r: Result<DependencyPayload>)
    ensures r.Ok? <==> ServiceNowDepType(Get(data, "type")).Ok?
                       && ServiceNowDepLag(Get(data, "lag"), Get(data, "lagUnit")).Ok?
    ensures r.Err? ==> r.error == if ServiceNowDepType(Get(data, "type")).Err? then InvalidDependencyType
                                  else InvalidLagUnit
    ensures r.Ok? ==> r.value.parent == Get(data, "from") && r.value.child == Get(data, "to")
  {
    var subType :- ServiceNowDepType(Get(data, "type"));
    var lag :- ServiceNowDepLag(Get(data, "lag"), Get(data, "lagUnit"));
    Ok(DependencyPayload(Get(data, "from"), Get(data, "to"), subType, lag))
  }

  /** A dependency created with type k and a whole lag of n units reads
      back, through the load path's decoders, as the same type, lag and
      unit. */
  lemma DependencyCreateRoundTrip(data: Record, k: int, n: int, u: LagUnit)
    requires Get(data, "type") == Num(k as real) && 0 <= k <= 3
    requires Get(data, "lag") == Num(n as real) && Get(data, "lagUnit") == Str(ShortName(u))
    requires u != Milliseconds && n >= 1
    requires u != Years ==> n * UnitMillis(u) < UnitMillis(Coarser(u))
    requires n * UnitMillis(u) < YearTenThousand
    ensures var r := DependencyCreatePayload(data);
      && r.Ok?
      && BryntumDepType(r.value.subType) == Ok(k)
      && BryntumDepLag(r.value.lag) == GanttLag(Num(n as real), u)
  {
    var subType := ServiceNowDepType(Num(k as real));
    var lag := ServiceNowDepLag(Num(n as real), Str(ShortName(u)));
    assert subType.Ok? && BryntumDepType(subType.value) == Ok(k) by {
      DepTypeRoundTrip("", k);
    }
    assert lag.Ok? && BryntumDepLag(lag.value) == GanttLag(Num(n as real), u) by {
      LagRoundTrip(n, u, ShortName(u));
    }
    assert DependencyCreatePayload(data) == Ok(DependencyPayload(Get(data, "from"), Get(data, "to"), subType.value, lag.value));
  }

  // ------------------------------------------------------------ update bodies

  /** The body after the field-copy loop: every entry whose key the field
      map knows, written under its column (later entries overwrite). */
  function Mapped(data: Record, fields: map<string, string>): Record {
    if data == [] then []
    else
      var init: Record := data[..|data| - 1];
      var (k, v) := data[|data| - 1];
      if k in fields then Put(Mapped(init, fields), fields[k], v) else Mapped(init, fields)
  }

  /** The field-copy loop of updateOperation. */
  method MapFields(data: Record, fields: map<string, string>) returns (body: Record)
    ensures body == Mapped(data, fields)
  {
    body := [];
    for i := 0 to |data|
      invariant body == Mapped(data[..i], fields)
    {
      var (k, v) := data[i];
      assert data[..i + 1][..i] == data[..i];
      if k in fields {
        body := Put(body, fields[k], v);
      }
    }
    assert data[..|data|] == data;
  }

  lemma HasKeyAppend(o: seq<(string, Value)>, x: (string, Value), k: string)
    ensures HasKey(o + [x], k) <==> HasKey(o, k) || x.0 == k
  {
    if HasKey(o, k) {
      var i :| 0 <= i < |o| && o[i].0 == k;
      assert (o + [x])[i].0 == k;
    }
    if x.0 == k {
      assert (o + [x])[|o|].0 == k;
    }
  }

  /** With an injective field map, the body has a column exactly when the
      record has a field mapped to it, holding that field's value; nothing
      else survives. */
  lemma {:induction false} MappedFields(data: Record, fields: map<string, string>)
    requires Injective(fields)
    ensures forall c :: HasKey(Mapped(data, fields), c) <==> exists k :: k in fields && fields[k] == c && HasKey(data, k)
    ensures forall k :: k in fields ==> Get(Mapped(data, fields), fields[k]) == Get(data, k)
  {
    if data != [] {
      var init: Record := data[..|data| - 1];
      var x := data[|data| - 1];
      assert data == init + [x];
      MappedFields(init, fields);
      forall k ensures HasKey(data, k) <==> HasKey(init, k) || x.0 == k {
        HasKeyAppend(init, x, k);
      }
      assert !HasKey(init, x.0);
      forall k | k in fields ensures Get(Mapped(data, fields), fields[k]) == Get(data, k) {
        GetAppend(init, x.0, x.1, k);
        if !HasKey(init, k) {
          GetAbsent(init, k);
        }
      }
    }
  }

  /** The body of the first date branch: both dates, the duration and
      percent_complete written in that order. */
  function WithBothDates(body: Record, start: string, end: string, duration: string, percent: string): Record {
    Put(Put(WithStartAndEnd(body, start, end), "duration", Str(duration)), "percent_complete", Str(percent))
  }

  function WithStartAndEnd(body: Record, start: string, end: string): (r: Record)
    ensures Get(r, "start_date") == Str(start) && Get(r, "end_date") == Str(end)
    ensures forall c :: HasKey(r, c) <==> HasKey(body, c) || c == "start_date" || c == "end_date"
  {
    Put(Put(body, "start_date", Str(start)), "end_date", Str(end))
  }

  lemma WithBothDatesValues(body: Record, start: string, end: string, duration: string, percent: string)
    ensures var r := WithBothDates(body, start, end, duration, percent);
      && Get(r, "start_date") == Str(start) && Get(r, "end_date") == Str(end)
      && Get(r, "duration") == Str(duration) && Get(r, "percent_complete") == Str(percent)
  {
    DateColumnsDistinct();
    var b := Put(WithStartAndEnd(body, start, end), "duration", Str(duration));
    assert Get(b, "start_date") == Str(start) && Get(b, "end_date") == Str(end);
  }

  lemma DateColumnsDistinct()
    ensures "duration" != "start_date" && "duration" != "end_date"
    ensures "percent_complete" != "start_date" && "percent_complete" != "end_date"
    ensures "percent_complete" != "duration"
  {
    assert "duration"[0] != "end_date"[0];
  }

  lemma WithBothDatesKeys(body: Record, start: string, end: string, duration: string, percent: string)
    ensures forall c :: HasKey(WithBothDates(body, start, end, duration, percent), c)
                        <==> HasKey(body, c) || c in {"start_date", "end_date", "duration", "percent_complete"}
  {
  }

  /** The body of the second date branch: end date, start date and
      duration written in that order. */
  function WithStartFromEnd(body: Record, end: string, start: string, duration: string): (r: Record)
    ensures Get(r, "start_date") == Str(start) && Get(r, "end_date") == Str(end)
    ensures Get(r, "duration") == Str(duration)
    ensures forall c :: HasKey(r, c) <==> HasKey(body, c) || c in {"start_date", "end_date", "duration"}
  {
    Put(Put(Put(body, "end_date", Str(end)), "start_date", Str(start)), "duration", Str(duration))
  }

  /** The date handling of a task update: both dates present rewrites both
      as ServiceNow timestamps, the duration and percent_complete; end date
      and duration present stores calcStartDate's outcome `computedStart`
      (an ISO string) as start_date and recomputes the duration from it;
      otherwise the body is left as it is. `computedStart` is consulted in
      the second branch only. */
  function AdjustDates(body: Record, data: Record, computedStart: Result<string>): Result<Record> {
    if Truthy(Get(body, "start_date")) && Truthy(Get(body, "end_date")) then
      var start :- FormatDateServiceNow(Get(data, "startDate"));
      var end :- FormatDateServiceNow(Get(data, "endDate"));
      Ok(WithBothDates(body, start, end, CalculateDuration(Get(data, "startDate"), Get(data, "endDate")),
                       ToString(Get(data, "percentDone"))))
    else if Truthy(Get(body, "end_date")) && Truthy(Get(body, "duration")) then
      var start :- computedStart;
      var end :- FormatDateServiceNow(Get(data, "endDate"));
      Ok(WithStartFromEnd(body, end, start, CalculateDuration(Str(start), Get(data, "endDate"))))
    else Ok(body)
  }

  /** calcStartDate on the record's end date, duration and unit. */
  function StartFromEnd(data: Record): Result<string> {
    CalcStartDate(Get(data, "endDate"), Get(data, "duration"), Get(data, "durationUnit"))
  }

  /** The PATCH body of an updated task (the record without its id). */
  function TaskUpdateOf(data: Record): Result<Record> {
    AdjustDates(Mapped(data, TaskFieldMap), data, StartFromEnd(data))
  }

  /** updateOperation for a task: copy the mapped fields, then fix up the
      dates. */
  method TaskUpdateBody(data: Record) returns (r: Result<Record>)
    ensures r == AdjustDates(Mapped(data, TaskFieldMap), data, StartFromEnd(data))
  {
    var body := MapFields(data, TaskFieldMap);
    if Truthy(Get(body, "start_date")) && Truthy(Get(body, "end_date")) {
      var start := FormatDateServiceNow(Get(data, "startDate"));
      if start.Err? {
        return Err(start.error);
      }
      body := Put(body, "start_date", Str(start.value));
      var end := FormatDateServiceNow(Get(data, "endDate"));
      if end.Err? {
        return Err(end.error);
      }
      body := Put(body, "end_date", Str(end.value));
      body := Put(body, "duration", Str(CalculateDuration(Get(data, "startDate"), Get(data, "endDate"))));
      body := Put(body, "percent_complete", Str(ToString(Get(data, "percentDone"))));
    } else if Truthy(Get(body, "end_date")) && Truthy(Get(body, "duration")) {
      var start := CalcStartDate(Get(data, "endDate"), Get(data, "duration"), Get(data, "durationUnit"));
      if start.Err? {
        return Err(start.error);
      }
      var end := FormatDateServiceNow(Get(data, "endDate"));
      if end.Err? {
        return Err(end.error);
      }
      body := Put(body, "end_date", Str(end.value));
      body := Put(body, "start_date", Str(start.value));
      body := Put(body, "duration", Str(CalculateDuration(Str(start.value), Get(data, "endDate"))));
    }
    r := Ok(body);
  }

  /** The columns the task field map writes to. */
  const TaskColumns: set<string> := {
    "short_description", "start_date", "end_date", "parent", "duration", "wbs_order",
    "percent_complete", "description", "status", "override_status"
  }

  lemma TaskColumnsOfMap()
    ensures forall k :: k in TaskFieldMap ==> TaskFieldMap[k] in TaskColumns
  {
  }

  /** The first branch, on any body whose dates are both set. */
  lemma BothDatesBranch(body: Record, data: Record, c: Result<string>, start: string, end: string)
    requires Truthy(Get(body, "start_date")) && Truthy(Get(body, "end_date"))
    requires FormatDateServiceNow(Get(data, "startDate")) == Ok(start)
    requires FormatDateServiceNow(Get(data, "endDate")) == Ok(end)
    ensures AdjustDates(body, data, c)
            == Ok(WithBothDates(body, start, end, CalculateDuration(Get(data, "startDate"), Get(data, "endDate")),
                                ToString(Get(data, "percentDone"))))
  {
  }

  /** The second branch, on any body with an end date and a duration but
      no start date. */
  lemma EndAndDurationBranch(body: Record, data: Record, start: string, end: string)
    requires !Truthy(Get(body, "start_date")) && Truthy(Get(body, "end_date")) && Truthy(Get(body, "duration"))
    requires FormatDateServiceNow(Get(data, "endDate")) == Ok(end)
    ensures AdjustDates(body, data, Ok(start))
            == Ok(WithStartFromEnd(body, end, start, CalculateDuration(Str(start), Get(data, "endDate"))))
  {
  }

  /** The date handling only adds date, duration and progress columns and
      keeps every column it was given. */
  lemma AdjustDatesKeys(body: Record, data: Record, c: Result<string>)
    ensures var r := AdjustDates(body, data, c);
      r.Ok? ==> && (forall k :: HasKey(body, k) ==> HasKey(r.value, k))
                && (forall k :: HasKey(r.value, k) ==>
                      HasKey(body, k) || k in {"start_date", "end_date", "duration", "percent_complete"})
  {
    var start := FormatDateServiceNow(Get(data, "startDate"));
    var end := FormatDateServiceNow(Get(data, "endDate"));
    if Truthy(Get(body, "start_date")) && Truthy(Get(body, "end_date")) {
      if start.Ok? && end.Ok? {
        BothDatesBranch(body, data, c, start.value, end.value);
        WithBothDatesKeys(body, start.value, end.value, CalculateDuration(Get(data, "startDate"), Get(data, "endDate")),
                          ToString(Get(data, "percentDone")));
      }
    } else if Truthy(Get(body, "end_date")) && Truthy(Get(body, "duration")) {
      if c.Ok? && end.Ok? {
        EndAndDurationBranch(body, data, c.value, end.value);
      }
    }
  }

  /** The date and duration columns of a mapped task body are the record's
      own date and duration fields. */
  lemma TaskMappedDates(data: Record)
    ensures var m := Mapped(data, TaskFieldMap);
      && Get(m, "start_date") == Get(data, "startDate")
      && Get(m, "end_date") == Get(data, "endDate")
      && Get(m, "duration") == Get(data, "duration")
  {
    FieldMapsInjective();
    MappedFields(data, TaskFieldMap);
    assert TaskFieldMap["startDate"] == "start_date" && TaskFieldMap["endDate"] == "end_date";
    assert TaskFieldMap["duration"] == "duration";
  }

  /** A task update body names only ServiceNow task columns, and every
      mapped field of the record is among them (whatever calcStartDate
      gives). */
  lemma TaskUpdateColumns(data: Record, c: Result<string>)
    ensures var r := AdjustDates(Mapped(data, TaskFieldMap), data, c);
      r.Ok? ==> && (forall col :: HasKey(r.value, col) ==> col in TaskColumns)
                && (forall k :: k in TaskFieldMap && HasKey(data, k) ==> HasKey(r.value, TaskFieldMap[k]))
  {
    FieldMapsInjective();
    MappedFields(data, TaskFieldMap);
    TaskColumnsOfMap();
    var m := Mapped(data, TaskFieldMap);
    AdjustDatesKeys(m, data, c);
    forall col | HasKey(m, col) ensures col in TaskColumns {
      var k :| k in TaskFieldMap && TaskFieldMap[k] == col && HasKey(data, k);
    }
  }

  /** Both dates given: the update fails, with InvalidDate, exactly when
      either date is invalid. */
  lemma BothDatesValid(data: Record, c: Result<string>)
    requires Truthy(Get(data, "startDate")) && Truthy(Get(data, "endDate"))
    ensures var r := AdjustDates(Mapped(data, TaskFieldMap), data, c);
      && (r.Ok? <==> NewDate(Get(data, "startDate")).Some? && NewDate(Get(data, "endDate")).Some?)
      && (r.Err? ==> r.error == InvalidDate)
  {
    var m := Mapped(data, TaskFieldMap);
    assert Truthy(Get(m, "start_date")) && Truthy(Get(m, "end_date")) by {
      TaskMappedDates(data);
    }
    BothDatesOutcome(m, data, c);
  }

  /** The first branch fails exactly when a date fails to format. */
  lemma BothDatesOutcome(body: Record, data: Record, c: Result<string>)
    requires Truthy(Get(body, "start_date")) && Truthy(Get(body, "end_date"))
    ensures var r := AdjustDates(body, data, c);
      && (r.Ok? <==> FormatDateServiceNow(Get(data, "startDate")).Ok? && FormatDateServiceNow(Get(data, "endDate")).Ok?)
      && (r.Err? ==> r.error == InvalidDate)
  {
  }

  /** Both dates given and valid (four-digit years): both are written as
      ServiceNow timestamps, the duration is the elapsed time between them
      and percent_complete is percentDone as text. */
  lemma BothDatesUpdate(data: Record, c: Result<string>, s: TimeValue, e: TimeValue)
    requires Truthy(Get(data, "startDate")) && Truthy(Get(data, "endDate"))
    requires NewDate(Get(data, "startDate")) == Some(s) && 0 <= DateTimeOf(s).date.year <= 9999
    requires NewDate(Get(data, "endDate")) == Some(e) && 0 <= DateTimeOf(e).date.year <= 9999
    ensures var r := AdjustDates(Mapped(data, TaskFieldMap), data, c);
      && r.Ok?
      && Get(r.value, "start_date") == Str(ServiceNowText(s))
      && Get(r.value, "end_date") == Str(ServiceNowText(e))
      && Get(r.value, "duration") == Str(ElapsedFrom(s, e))
      && Get(r.value, "percent_complete") == Str(ToString(Get(data, "percentDone")))
  {
    BothDatesOk(data, c, s, e);
    WithBothDatesValues(Mapped(data, TaskFieldMap), ServiceNowText(s), ServiceNowText(e),
                        CalculateDuration(Get(data, "startDate"), Get(data, "endDate")), ToString(Get(data, "percentDone")));
    DurationOf(Get(data, "startDate"), Get(data, "endDate"), s, e);
  }

  lemma BothDatesOk(data: Record, c: Result<string>, s: TimeValue, e: TimeValue)
    requires Truthy(Get(data, "startDate")) && Truthy(Get(data, "endDate"))
    requires NewDate(Get(data, "startDate")) == Some(s) && 0 <= DateTimeOf(s).date.year <= 9999
    requires NewDate(Get(data, "endDate")) == Some(e) && 0 <= DateTimeOf(e).date.year <= 9999
    ensures AdjustDates(Mapped(data, TaskFieldMap), data, c)
            == Ok(WithBothDates(Mapped(data, TaskFieldMap), ServiceNowText(s), ServiceNowText(e),
                                CalculateDuration(Get(data, "startDate"), Get(data, "endDate")),
                                ToString(Get(data, "percentDone"))))
  {
    TaskMappedDates(data);
    FormatDateServiceNowShape(Get(data, "startDate"), s);
    FormatDateServiceNowShape(Get(data, "endDate"), e);
    BothDatesBranch(Mapped(data, TaskFieldMap), data, c, ServiceNowText(s), ServiceNowText(e));
  }

  /** End date and duration given, start date not: start_date is the
      calcStartDate ISO string as it is (not reformatted), end_date the
      ServiceNow timestamp, and the duration the elapsed time from the
      computed start to the end. */
  lemma EndAndDurationUpdate(data: Record, start: TimeValue, t: TimeValue)
    requires !Truthy(Get(data, "startDate")) && Truthy(Get(data, "endDate")) && Truthy(Get(data, "duration"))
    requires NewDate(Get(data, "endDate")) == Some(t) && 0 <= DateTimeOf(t).date.year <= 9999
    requires 0 <= DateTimeOf(start).date.year <= 9999
    ensures var r := AdjustDates(Mapped(data, TaskFieldMap), data, Ok(IsoString(start)));
      && r.Ok?
      && Get(r.value, "start_date") == Str(IsoString(start))
      && Get(r.value, "end_date") == Str(ServiceNowText(t))
      && Get(r.value, "duration") == Str(ElapsedFrom(start, t))
  {
    var m := Mapped(data, TaskFieldMap);
    assert !Truthy(Get(m, "start_date")) && Truthy(Get(m, "end_date")) && Truthy(Get(m, "duration")) by {
      TaskMappedDates(data);
    }
    assert FormatDateServiceNow(Get(data, "endDate")) == Ok(ServiceNowText(t)) by {
      FormatDateServiceNowShape(Get(data, "endDate"), t);
    }
    EndAndDurationBranch(m, data, IsoString(start), ServiceNowText(t));
    assert CalculateDuration(Str(IsoString(start)), Get(data, "endDate")) == ElapsedFrom(start, t) by {
      NewDateIso(start);
      DurationOf(Str(IsoString(start)), Get(data, "endDate"), start, t);
    }
  }

  /** With a whole number n of fixed-length units, the task update's
      computed start is n units before the end date, so the duration it
      writes is exactly n units. */
  lemma EndAndDurationFixed(data: Record, t: TimeValue, n: nat, u: DurationUnit)
    requires Get(data, "duration") == Num(n as real)
    requires Get(data, "durationUnit") == Str(DurationUnitName(u)) && u in {Millisecond, Second, Minute, Hour, Day, Week}
    requires NewDate(Get(data, "endDate")) == Some(t)
    requires TimeClip(t - n * FixedSpan(u)).Some?
    ensures StartFromEnd(data) == Ok(IsoString(TimeClip(t - n * FixedSpan(u)).value))
    ensures t - TimeClip(t - n * FixedSpan(u)).value == n * FixedSpan(u)
  {
    CalcStartDateFixed(Get(data, "endDate"), t, n, u);
  }

  /** sub_type, then lag, written over the copied dependency columns. */
  function WithCodecs(body: Record, subType: string, lag: string): (r: Record)
    ensures Get(r, "sub_type") == Str(subType) && Get(r, "lag") == Str(lag)
    ensures forall c :: c != "sub_type" && c != "lag" ==> Get(r, c) == Get(body, c)
    ensures forall c :: HasKey(r, c) <==> HasKey(body, c) || c in {"sub_type", "lag"}
  {
    Put(Put(body, "sub_type", Str(subType)), "lag", Str(lag))
  }

  /** The PATCH-turned-POST body of an updated dependency. */
  function DependencyUpdateOf(data: Record): Result<Record> {
    var subType :- ServiceNowDepType(Get(data, "type"));
    var lag :- ServiceNowDepLag(Get(data, "lag"), Get(data, "lagUnit"));
    Ok(WithCodecs(Mapped(data, DependencyFieldMap), subType, lag))
  }

  /** updateOperation for a dependency: copy fromEvent and toEvent, then
      always overwrite sub_type and lag from the codecs. */
  method DependencyUpdateBody(data: Record) returns (r: Result<Record>)
    ensures r == DependencyUpdateOf(data)
  {
    var body := MapFields(data, DependencyFieldMap);
    var subType := ServiceNowDepType(Get(data, "type"));
    if subType.Err? {
      return Err(subType.error);
    }
    body := Put(body, "sub_type", Str(subType.value));
    var lag := ServiceNowDepLag(Get(data, "lag"), Get(data, "lagUnit"));
    if lag.Err? {
      return Err(lag.error);
    }
    body := Put(body, "lag", Str(lag.value));
    r := Ok(body);
  }

  /** A dependency update fails exactly when a codec does, with the type
      error first. */
  lemma DependencyUpdateValid(data: Record)
    ensures var r := DependencyUpdateOf(data);
      && (r.Ok? <==> ServiceNowDepType(Get(data, "type")).Ok?
                     && ServiceNowDepLag(Get(data, "lag"), Get(data, "lagUnit")).Ok?)
      && (r.Err? ==> r.error == if ServiceNowDepType(Get(data, "type")).Err? then InvalidDependencyType
                                else InvalidLagUnit)
  {
  }

  /** The dependency columns copied from a record: parent and child exactly
      when fromEvent and toEvent are given, holding their values. */
  lemma DependencyMapped(data: Record)
    ensures var m := Mapped(data, DependencyFieldMap);
      && (forall c :: HasKey(m, c) <==> ((c == "parent" && HasKey(data, "fromEvent"))
                                        || (c == "child" && HasKey(data, "toEvent"))))
      && Get(m, "parent") == Get(data, "fromEvent")
      && Get(m, "child") == Get(data, "toEvent")
  {
    FieldMapsInjective();
    MappedFields(data, DependencyFieldMap);
    assert DependencyFieldMap["fromEvent"] == "parent" && DependencyFieldMap["toEvent"] == "child";
    var m := Mapped(data, DependencyFieldMap);
    forall c ensures HasKey(m, c) <==> ((c == "parent" && HasKey(data, "fromEvent"))
                                       || (c == "child" && HasKey(data, "toEvent"))) {
      if HasKey(m, c) {
        var k :| k in DependencyFieldMap && DependencyFieldMap[k] == c && HasKey(data, k);
      }
    }
  }

  /** A successful dependency update is the copied columns with the codec
      results written over them. */
  lemma DependencyUpdateOk(data: Record, subType: string, lag: string)
    requires ServiceNowDepType(Get(data, "type")) == Ok(subType)
    requires ServiceNowDepLag(Get(data, "lag"), Get(data, "lagUnit")) == Ok(lag)
    ensures DependencyUpdateOf(data) == Ok(WithCodecs(Mapped(data, DependencyFieldMap), subType, lag))
  {
  }

  /** A successful dependency update body holds sub_type and lag from the
      codecs, parent and child only when fromEvent and toEvent are given,
      and nothing else. */
  lemma DependencyUpdateColumns(data: Record, subType: string, lag: string)
    requires ServiceNowDepType(Get(data, "type")) == Ok(subType)
    requires ServiceNowDepLag(Get(data, "lag"), Get(data, "lagUnit")) == Ok(lag)
    ensures var r := DependencyUpdateOf(data);
      && r.Ok?
      && (forall c :: HasKey(r.value, c) <==> (c in {"sub_type", "lag"}
                                              || (c == "parent" && HasKey(data, "fromEvent"))
                                              || (c == "child" && HasKey(data, "toEvent"))))
      && Get(r.value, "sub_type") == Str(subType)
      && Get(r.value, "lag") == Str(lag)
      && Get(r.value, "parent") == Get(data, "fromEvent")
      && Get(r.value, "child") == Get(data, "toEvent")
  {
    var m := Mapped(data, DependencyFieldMap);
    var b := WithCodecs(m, subType, lag);
    assert DependencyUpdateOf(data) == Ok(b) by {
      DependencyUpdateOk(data, subType, lag);
    }
    DependencyMapped(data);
    CodecsKeepEnds(m, subType, lag);
  }

  lemma CodecsKeepEnds(body: Record, subType: string, lag: string)
    ensures var r := WithCodecs(body, subType, lag);
      Get(r, "parent") == Get(body, "parent") && Get(r, "child") == Get(body, "child")
  {
    assert "parent" != "sub_type" && "parent" != "lag" && "child" != "sub_type" && "child" != "lag";
  }
}
