/** The calls the server makes to the ServiceNow table API for one record
    of a sync request. The API is an oracle: a list of replies, the k-th
    answering the k-th call the server makes. */
module Calls {
  import opened Wrappers
  import opened Js
  import opened Payloads

  // ------------------------------------------------------------- requests

  datatype Table = Tasks | Dependencies

  /** The JSON body of a POST: a created task, a created relation, or the
      columns of an updated relation. */
  datatype Body =
    | TaskRow(task: TaskPayload)
    | DependencyRow(dependency: DependencyPayload)
    | Columns(columns: Record)

  /** One call to the table API of `table` (pm_project_task or
      planned_task_rel_planned_task); `id` is the record id the URL ends in
      (interpolated into it, that is, as String(id)). */
  datatype Request =
    | Post(table: Table, body: Body)
    | Patch(table: Table, id: Value, columns: Record)
    | Delete(table: Table, id: Value)

  /** The outcome of one call: a rejected fetch or an unreadable JSON body,
      or the response's `result?.sys_id` (undefined when it has none). */
  datatype Reply = Failed | Answered(sysId: Value)

  /** The reply to the call made after `k` others: the listed reply, or a
      failed fetch once the list runs out. */
  function ReplyAt(replies: seq<Reply>, k: nat): Reply {
    if k < |replies| then replies[k] else Failed
  }

  /** An element of the array a batch resolves to. */
  datatype Row =
    | NoRow                                 // undefined
    | Created(phantomId: Value, id: Value)  // { $PhantomId, id }
    | Moved(oldId: Value, newId: Value)     // { oldId, newId }

  datatype Operation = Add | Update | Remove

  /** The calls a part of the handler makes, in order, and what it yields. */
  datatype Run<T> = Run(sent: seq<Request>, result: Result<T>)

  lemma Assoc<T>(a: seq<T>, b: seq<T>, c: seq<T>)
    ensures a + b + c == a + (b + c)
  {
  }

  // --------------------------------------------------------- one record

  /** The bodies a record's callback builds before its first call: the
      POST body of an added record and the update bodies of an updated task
      or relation, each built from the whole record. */
  datatype Builders = Builders(
    create: (Table, Record) -> Result<Body>,
    taskUpdate: Record -> Result<Record>,
    dependencyUpdate: Record -> Result<Record>)

  /** The record is one whose create body builds. */
  predicate Creatable(make: Builders, table: Table, record: Record) {
    make.create(table, record).Ok?
  }

  /** The callback of createOperation: build the body, POST it, and report
      the phantom id with the sys_id the API assigned. `n` is the number of
      calls made before. */
  function CreateStep(make: Builders, table: Table, record: Record, replies: seq<Reply>, n: nat): Run<Row> {
    match make.create(table, record)
    case Err(e) => Run([], Err(e))
    case Ok(body) =>
      Run([Post(table, body)],
          match ReplyAt(replies, n)
          case Failed => Err(RequestFailed)
          case Answered(id) => Ok(Created(Get(record, "$PhantomId"), id)))
  }

  /** The task callback of updateOperation: PATCH the update body to the
      task's URL; it resolves to undefined. */
  function TaskUpdateStep(make: Builders, record: Record, replies: seq<Reply>, n: nat): Run<Row> {
    match make.taskUpdate(record)
    case Err(e) => Run([], Err(e))
    case Ok(body) =>
      Run([Patch(Tasks, Get(record, "id"), body)],
          if ReplyAt(replies, n).Failed? then Err(RequestFailed) else Ok(NoRow))
  }

  /** The dependency callback of updateOperation: DELETE the old relation,
      then POST the update body as a new one, and report the old and the
      new id. */
  function DependencyUpdateStep(make: Builders, record: Record, replies: seq<Reply>, n: nat): Run<Row> {
    var id := Get(record, "id");
    match make.dependencyUpdate(record)
    case Err(e) => Run([], Err(e))
    case Ok(body) =>
      var remove := Delete(Dependencies, id);
      if ReplyAt(replies, n).Failed? then Run([remove], Err(RequestFailed))
      else
        Run([remove, Post(Dependencies, Columns(body))],
            match ReplyAt(replies, n + 1)
            case Failed => Err(RequestFailed)
            case Answered(newId) => Ok(Moved(id, newId)))
  }

  /** The callback of deleteOperation: DELETE the record's URL. */
  function RemoveStep(table: Table, record: Record, replies: seq<Reply>, n: nat): Run<Row> {
    Run([Delete(table, Get(record, "id"))],
        if ReplyAt(replies, n).Failed? then Err(RequestFailed) else Ok(NoRow))
  }

  /** Every call in `requests` goes to `table`. */
  predicate AllTo(requests: seq<Request>, table: Table) {
    forall k :: 0 <= k < |requests| ==> requests[k].table == table
  }

  /** The calls one record makes all go to its own table, at most two. */
  function Step(make: Builders, table: Table, op: Operation, record: Record, replies: seq<Reply>, n: nat): (r: Run<Row>)
    ensures |r.sent| <= 2
    ensures AllTo(r.sent, table)
  {
    match op
    case Add => CreateStep(make, table, record, replies, n)
    case Update =>
      (match table
       case Tasks => TaskUpdateStep(make, record, replies, n)
       case Dependencies => DependencyUpdateStep(make, record, replies, n))
    case Remove => RemoveStep(table, record, replies, n)
  }
}
