/** The load path of the server (GET /api/load): ServiceNow project and
    project-task rows become Gantt task rows plus one root row for the
    project, each task row's embedded inbound relation becomes a Gantt
    dependency, and the tasks are sorted by their parent index. */
module Load {
  import opened Wrappers
  import opened Js
  import opened Utils

  // ------------------------------------------------------------ input rows

  /** The `relation_applied` columns of a task row: the relation's sys_id,
      its predecessor's sys_id, its GlideDuration lag and its sub_type. */
  datatype Relation = Relation(id: string, parent: string, lag: string, subType: string)

  /** A pm_project_task row. `parent` is the reference's value (None when
      the reference is empty); `relation` is None when the task has no
      inbound relation. */
  datatype TaskRow = TaskRow(
    sysId: string, shortDescription: string, parent: Option<string>,
    startDate: string, endDate: string, wbsOrder: string, percentComplete: string,
    description: string, status: string, overrideStatus: string,
    relation: Option<Relation>)

  /** A pm_project row. */
  datatype ProjectRow = ProjectRow(
    sysId: string, shortDescription: string, startDate: string, endDate: string,
    wbsOrder: string, percentComplete: string, description: string, status: string,
    overrideStatus: string)

  // ----------------------------------------------------------- output rows

  datatype GanttTask = GanttTask(
    id: string, name: string, parentId: Value, startDate: string, endDate: string,
    parentIndex: Value, percentDone: Value, note: string, status: string,
    overrideStatus: Value, manuallyScheduled: bool, expanded: bool)

  datatype GanttDependency = GanttDependency(
    id: string, from: string, to: string, depType: int, lag: Value, lagUnit: string)

  datatype Loaded = Loaded(tasks: seq<GanttTask>, dependencies: seq<GanttDependency>)

  predicate IntegerOrNaN(v: Value) {
    (v.Num? && IsInteger(v.n)) || v.NaN?
  }

  /** What every loaded task carries: both flags set and the three numeric
      columns parsed to integers (or NaN when unparseable). */
  predicate WellFormedTask(t: GanttTask) {
    && t.manuallyScheduled && t.expanded
    && IntegerOrNaN(t.parentIndex) && IntegerOrNaN(t.percentDone) && IntegerOrNaN(t.overrideStatus)
  }

  /** The Gantt row of a task row. */
  function TaskOf(row: TaskRow): (t: GanttTask)
    ensures WellFormedTask(t) && t.id == row.sysId
    ensures t.parentId.Str? || t.parentId.Undefined?
  {
    GanttTask(row.sysId, row.shortDescription,
              match row.parent case Some(p) => Str(p) case None => Undefined,
              row.startDate, row.endDate,
              ParseInt(row.wbsOrder), Round(ParseInt(row.percentComplete)),
              row.description, row.status, ParseInt(row.overrideStatus), true, true)
  }

  /** The root row made from the project: the only row whose parent is null. */
  function ProjectTask(p: ProjectRow): (t: GanttTask)
    ensures WellFormedTask(t) && t.id == p.sysId && t.parentId == Null
  {
    GanttTask(p.sysId, p.shortDescription, Null, p.startDate, p.endDate,
              ParseInt(p.wbsOrder), Round(ParseInt(p.percentComplete)),
              p.description, p.status, ParseInt(p.overrideStatus), true, true)
  }

  function TasksOf(rows: seq<TaskRow>): (ts: seq<GanttTask>)
    ensures |ts| == |rows|
    ensures forall i :: 0 <= i < |rows| ==> ts[i] == TaskOf(rows[i])
  {
    seq(|rows|, i requires 0 <= i < |rows| => TaskOf(rows[i]))
  }

  /** The dependency of a task row with an inbound relation: the relation's
      own id, from its predecessor to this task, with the type and lag
      decoded. */
  function DependencyOf(row: TaskRow, rel: Relation): (r: Result<GanttDependency>)
    ensures r.Ok? <==> BryntumDepType(rel.subType).Ok?
    ensures r.Err? ==> r.error == InvalidDependencyType
    ensures r.Ok? ==> && r.value.id == rel.id && r.value.from == rel.parent && r.value.to == row.sysId
                      && Ok(r.value.depType) == BryntumDepType(rel.subType)
                      && r.value.lag == BryntumDepLag(rel.lag).lag
                      && r.value.lagUnit == ShortName(BryntumDepLag(rel.lag).lagUnit)
  {
    var lag := BryntumDepLag(rel.lag);
    var depType :- BryntumDepType(rel.subType);
    Ok(GanttDependency(rel.id, rel.parent, row.sysId, depType, lag.lag, ShortName(lag.lagUnit)))
  }

  /** The dependencies of the rows, in row order; the first relation whose
      sub_type is unknown makes the whole load fail. */
  function DependenciesOf(rows: seq<TaskRow>): Result<seq<GanttDependency>> {
    if rows == [] then Ok([])
    else
      var init :- DependenciesOf(rows[..|rows| - 1]);
      var row := rows[|rows| - 1];
      match row.relation
      case None => Ok(init)
      case Some(rel) =>
        var d :- DependencyOf(row, rel);
        Ok(init + [d])
  }

  /** The task rows that carry an inbound relation, in order. */
  function Related(rows: seq<TaskRow>): (r: seq<TaskRow>)
    ensures forall i :: 0 <= i < |r| ==> r[i].relation.Some? && r[i] in rows
  {
    if rows == [] then []
    else Related(rows[..|rows| - 1]) + (if rows[|rows| - 1].relation.Some? then [rows[|rows| - 1]] else [])
  }

  /** Exactly one dependency per related row, in the same order, built from
      that row; the load fails exactly when some related row has an unknown
      sub_type. */
  lemma {:induction false} DependenciesOfRelated(rows: seq<TaskRow>)
    ensures DependenciesOf(rows).Ok? <==>
              forall i :: 0 <= i < |rows| && rows[i].relation.Some? ==>
                BryntumDepType(rows[i].relation.value.subType).Ok?
    ensures DependenciesOf(rows).Err? ==> DependenciesOf(rows).error == InvalidDependencyType
    ensures DependenciesOf(rows).Ok? ==>
              var ds := DependenciesOf(rows).value;
              && |ds| == |Related(rows)|
              && forall k :: 0 <= k < |ds| ==>
                   Ok(ds[k]) == DependencyOf(Related(rows)[k], Related(rows)[k].relation.value)
  {
    if rows != [] {
      var init := rows[..|rows| - 1];
      DependenciesOfRelated(init);
      assert forall i :: 0 <= i < |init| ==> init[i] == rows[i];
    }
  }

  lemma {:induction false} DependenciesErrPersists(rows: seq<TaskRow>, j: nat)
    requires j <= |rows| && DependenciesOf(rows[..j]).Err?
    ensures DependenciesOf(rows).Err?
    decreases |rows| - j
  {
    if j < |rows| {
      assert rows[..j + 1][..j] == rows[..j];
      DependenciesErrPersists(rows, j + 1);
    } else {
      assert rows[..j] == rows;
    }
  }

  // ---------------------------------------------------------------- sorting

  /** The comparator `(a, b) => a.parentIndex - b.parentIndex` is positive:
      both indexes are numbers and the first is larger (NaN compares as
      equal to everything). */
  predicate Greater(a: GanttTask, b: GanttTask) {
    a.parentIndex.Num? && b.parentIndex.Num? && a.parentIndex.n > b.parentIndex.n
  }

  /** Inserts x into s from the back, passing only greater elements. */
  function Insert(s: seq<GanttTask>, x: GanttTask): (r: seq<GanttTask>)
    ensures |r| == |s| + 1
  {
    if s == [] || !Greater(s[|s| - 1], x) then s + [x]
    else Insert(s[..|s| - 1], x) + [s[|s| - 1]]
  }

  /** Stable insertion sort by parent index: the order `tasks.sort` gives. */
  function SortByParentIndex(s: seq<GanttTask>): (r: seq<GanttTask>)
    ensures |r| == |s|
  {
    if s == [] then [] else Insert(SortByParentIndex(s[..|s| - 1]), s[|s| - 1])
  }

  /** The tasks of s with parent index k, in order. */
  function WithIndex(s: seq<GanttTask>, k: Value): seq<GanttTask> {
    if s == [] then []
    else WithIndex(s[..|s| - 1], k) + (if s[|s| - 1].parentIndex == k then [s[|s| - 1]] else [])
  }

  predicate AllNumeric(s: seq<GanttTask>) {
    forall i :: 0 <= i < |s| ==> s[i].parentIndex.Num?
  }

  predicate SortedByParentIndex(s: seq<GanttTask>)
    requires AllNumeric(s)
  {
    forall i, j :: 0 <= i < j < |s| ==> s[i].parentIndex.n <= s[j].parentIndex.n
  }

  lemma {:induction false} InsertPermutes(s: seq<GanttTask>, x: GanttTask)
    ensures multiset(Insert(s, x)) == multiset(s) + multiset{x}
  {
    if s != [] && Greater(s[|s| - 1], x) {
      InsertPermutes(s[..|s| - 1], x);
      assert s == s[..|s| - 1] + [s[|s| - 1]];
    }
  }

  lemma WithIndexAppend(s: seq<GanttTask>, y: GanttTask, k: Value)
    ensures WithIndex(s + [y], k) == WithIndex(s, k) + (if y.parentIndex == k then [y] else [])
  {
    assert (s + [y])[..|s|] == s;
  }

  lemma {:induction false} InsertStable(s: seq<GanttTask>, x: GanttTask, k: Value)
    ensures WithIndex(Insert(s, x), k) == WithIndex(s, k) + (if x.parentIndex == k then [x] else [])
  {
    if s == [] || !Greater(s[|s| - 1], x) {
      WithIndexAppend(s, x, k);
    } else {
      var init, y := s[..|s| - 1], s[|s| - 1];
      InsertStable(init, x, k);
      WithIndexAppend(Insert(init, x), y, k);
      assert s == init + [y];
      WithIndexAppend(init, y, k);
    }
  }

  /** Every element of Insert(s, x) comes from s or is x, so a bound on
      the parent indexes of both bounds the result. */
  lemma InsertBounded(s: seq<GanttTask>, x: GanttTask, y: GanttTask)
    requires AllNumeric(s) && x.parentIndex.Num? && y.parentIndex.Num?
    requires forall i :: 0 <= i < |s| ==> s[i].parentIndex.n <= y.parentIndex.n
    requires x.parentIndex.n <= y.parentIndex.n
    ensures forall i :: 0 <= i < |Insert(s, x)| ==>
              Insert(s, x)[i].parentIndex.Num? && Insert(s, x)[i].parentIndex.n <= y.parentIndex.n
  {
    var r := Insert(s, x);
    InsertPermutes(s, x);
    forall i | 0 <= i < |r| ensures r[i].parentIndex.Num? && r[i].parentIndex.n <= y.parentIndex.n {
      assert r[i] in multiset(r);
      if r[i] != x {
        assert r[i] in multiset(s);
        var k :| 0 <= k < |s| && s[k] == r[i];
      }
    }
  }

  lemma {:induction false} InsertSorted(s: seq<GanttTask>, x: GanttTask)
    requires AllNumeric(s) && x.parentIndex.Num? && SortedByParentIndex(s)
    ensures AllNumeric(Insert(s, x)) && SortedByParentIndex(Insert(s, x))
  {
    if s != [] && Greater(s[|s| - 1], x) {
      var init, y := s[..|s| - 1], s[|s| - 1];
      InsertSorted(init, x);
      InsertBounded(init, x, y);
      assert Insert(s, x) == Insert(init, x) + [y];
    } else {
      assert Insert(s, x) == s + [x];
    }
  }

  /** The sort is a permutation, keeps the relative order of tasks with
      equal parent index, and orders the tasks when every index is a
      number. */
  lemma {:induction false} SortByParentIndexCorrect(s: seq<GanttTask>)
    ensures multiset(SortByParentIndex(s)) == multiset(s)
    ensures forall k :: WithIndex(SortByParentIndex(s), k) == WithIndex(s, k)
    ensures AllNumeric(s) ==> AllNumeric(SortByParentIndex(s)) && SortedByParentIndex(SortByParentIndex(s))
  {
    if s != [] {
      var init, x := s[..|s| - 1], s[|s| - 1];
      SortByParentIndexCorrect(init);
      InsertPermutes(SortByParentIndex(init), x);
      assert s == init + [x];
      forall k ensures WithIndex(SortByParentIndex(s), k) == WithIndex(s, k) {
        InsertStable(SortByParentIndex(init), x, k);
        WithIndexAppend(init, x, k);
      }
      if AllNumeric(s) {
        assert AllNumeric(init);
        InsertSorted(SortByParentIndex(init), x);
      }
    }
  }

  /** Where the shifting loop stops: x goes right after the prefix when
      every element past it is greater than x and the one before it is not. */
  lemma {:induction false} InsertAt(s: seq<GanttTask>, j: nat, x: GanttTask)
    requires j <= |s| && (j == 0 || !Greater(s[j - 1], x))
    requires forall k :: j <= k < |s| ==> Greater(s[k], x)
    ensures Insert(s, x) == s[..j] + [x] + s[j..]
    decreases |s|
  {
    if j == |s| {
      assert s[..j] == s && s[j..] == [];
    } else {
      var init := s[..|s| - 1];
      InsertAt(init, j, x);
      assert init[..j] == s[..j] && init[j..] + [s[|s| - 1]] == s[j..];
    }
  }

  lemma SortStep(s: seq<GanttTask>, i: nat)
    requires i < |s|
    ensures SortByParentIndex(s[..i + 1]) == Insert(SortByParentIndex(s[..i]), s[i])
  {
    assert s[..i + 1][..i] == s[..i];
  }

  /** The inner loop of the sort: moves a[i] left past every greater
      element of a[..i]. */
  method InsertInto(a: array<GanttTask>, i: nat)
    requires i < a.Length
    modifies a
    ensures a[..i + 1] == Insert(old(a[..i]), old(a[i]))
    ensures forall k :: i < k < a.Length ==> a[k] == old(a[k])
  {
    ghost var sorted := a[..i];
    var x := a[i];
    var j := i;
    while j > 0 && Greater(a[j - 1], x)
      invariant 0 <= j <= i
      invariant forall k :: 0 <= k < j ==> a[k] == sorted[k]
      invariant forall k :: j < k <= i ==> a[k] == sorted[k - 1]
      invariant forall k :: i < k < a.Length ==> a[k] == old(a[k])
      invariant forall k :: j <= k < i ==> Greater(sorted[k], x)
    {
      a[j] := a[j - 1];
      j := j - 1;
    }
    InsertAt(sorted, j, x);
    a[j] := x;
    Shifted(a[..], sorted, i, j, x);
  }

  /** The array after the inner loop: the prefix, x, then the shifted rest. */
  lemma Shifted(s: seq<GanttTask>, sorted: seq<GanttTask>, i: nat, j: nat, x: GanttTask)
    requires j <= i < |s| && |sorted| == i && s[j] == x
    requires forall k :: 0 <= k < j ==> s[k] == sorted[k]
    requires forall k :: j < k <= i ==> s[k] == sorted[k - 1]
    ensures s[..i + 1] == sorted[..j] + [x] + sorted[j..]
  {
    ghost var target := sorted[..j] + [x] + sorted[j..];
    forall k | 0 <= k <= i ensures s[k] == target[k] {
      if k < j {
        assert target[k] == sorted[k];
      } else if k > j {
        assert target[k] == sorted[k - 1];
      }
    }
  }

  /** `tasks.sort(...)` on an array: insertion sort. */
  method SortTasks(a: array<GanttTask>)
    modifies a
    ensures a[..] == SortByParentIndex(old(a[..]))
  {
    ghost var original := a[..];
    for i := 0 to a.Length
      invariant a[..i] == SortByParentIndex(original[..i])
      invariant forall k :: i <= k < a.Length ==> a[k] == original[k]
    {
      InsertInto(a, i);
      SortStep(original, i);
    }
    assert original[..a.Length] == original;
  }

  // ------------------------------------------------------------------- load

  /** How one more row extends the tasks and the dependencies. */
  lemma LoadStep(rows: seq<TaskRow>, i: nat)
    requires i < |rows|
    ensures TasksOf(rows[..i + 1]) == TasksOf(rows[..i]) + [TaskOf(rows[i])]
    ensures DependenciesOf(rows[..i + 1]) ==
              if DependenciesOf(rows[..i]).Err? then DependenciesOf(rows[..i])
              else match rows[i].relation
                case None => DependenciesOf(rows[..i])
                case Some(rel) =>
                  if DependencyOf(rows[i], rel).Err? then Err(InvalidDependencyType)
                  else Ok(DependenciesOf(rows[..i]).value + [DependencyOf(rows[i], rel).value])
  {
    assert rows[..i + 1][..i] == rows[..i];
  }

  /** The tasks, copied into an array and sorted there. */
  method SortedCopy(tasks: seq<GanttTask>) returns (sorted: seq<GanttTask>)
    ensures sorted == SortByParentIndex(tasks)
  {
    var a := new GanttTask[|tasks|](i requires 0 <= i < |tasks| => tasks[i]);
    assert a[..] == tasks;
    SortTasks(a);
    sorted := a[..];
  }

  /** The translation of the load handler: map every task row (collecting
      its dependency), add the project row, sort by parent index. */
  method LoadRows(projects: seq<ProjectRow>, rows: seq<TaskRow>) returns (r: Result<Loaded>)
    ensures DependenciesOf(rows).Err? ==> r == Err(InvalidDependencyType)
    ensures DependenciesOf(rows).Ok? && projects == [] ==> r == Err(ProjectNotFound)
    ensures DependenciesOf(rows).Ok? && projects != [] ==>
              r == Ok(Loaded(SortByParentIndex(TasksOf(rows) + [ProjectTask(projects[0])]),
                             DependenciesOf(rows).value))
  {
    var dependencies: seq<GanttDependency> := [];
    var tasks: seq<GanttTask> := [];
    for i := 0 to |rows|
      invariant DependenciesOf(rows[..i]) == Ok(dependencies)
      invariant tasks == TasksOf(rows[..i])
    {
      var row := rows[i];
      LoadStep(rows, i);
      if row.relation.Some? {
        var rel := row.relation.value;
        var lag := BryntumDepLag(rel.lag);
        var depType := BryntumDepType(rel.subType);
        if depType.Err? {
          DependenciesErrPersists(rows, i + 1);
          return Err(InvalidDependencyType);
        }
        dependencies := dependencies + [GanttDependency(rel.id, rel.parent, row.sysId, depType.value,
                                                        lag.lag, ShortName(lag.lagUnit))];
      }
      tasks := tasks + [TaskOf(row)];
    }
    assert rows[..|rows|] == rows;
    if projects == [] {
      return Err(ProjectNotFound);
    }
    tasks := tasks + [ProjectTask(projects[0])];
    var sorted := SortedCopy(tasks);
    r := Ok(Loaded(sorted, dependencies));
  }

  /** The loaded task list holds every mapped row and the project row, one
      more than there are rows, sorted stably by parent index; the project
      row is the only one with a null parent, and every task is well formed. */
  lemma LoadedTasks(p: ProjectRow, rows: seq<TaskRow>)
    ensures var input := TasksOf(rows) + [ProjectTask(p)];
      var tasks := SortByParentIndex(input);
      && |tasks| == |rows| + 1
      && multiset(tasks) == multiset(input)
      && (forall k :: WithIndex(tasks, k) == WithIndex(input, k))
      && (AllNumeric(input) ==> AllNumeric(tasks) && SortedByParentIndex(tasks))
      && (forall t :: t in tasks ==> WellFormedTask(t))
      && (forall t :: t in tasks && t.parentId == Null ==> t == ProjectTask(p))
  {
    var input := TasksOf(rows) + [ProjectTask(p)];
    SortByParentIndexCorrect(input);
    var tasks := SortByParentIndex(input);
    MappedTasks(rows);
    forall t | t in tasks ensures t in input {
      assert t in multiset(tasks);
    }
  }

  /** Every mapped row is well formed and has a string or absent parent. */
  lemma MappedTasks(rows: seq<TaskRow>)
    ensures forall t :: t in TasksOf(rows) ==> WellFormedTask(t) && t.parentId != Null
  {
    forall t | t in TasksOf(rows) ensures WellFormedTask(t) && t.parentId != Null {
      var i :| 0 <= i < |rows| && TasksOf(rows)[i] == t;
    }
  }
}
