/** The sync path of the server (POST /api/sync): the Gantt's added,
    updated and removed records of each table become calls to the
    ServiceNow table API, and the identifiers the API assigns are reported
    back to the Gantt. Each batch (`Promise.all` over a `map`) runs its
    records one after the other, in order. */
module Sync {
  import opened Wrappers
  import opened Js
  import opened Calls

  // ------------------------------------------------------------ callbacks

  /** A record's callback as a value: given the number of calls made before
      it, the calls it makes and the element it resolves to. */
  type Callback = (Record, nat) -> Run<Row>

  /** The callback behaves as `Step` prescribes for the operation on the
      table. The trigger lets the verifier use this only where a `Step` term
      is in view, so that the batches above stay abstract. */
  ghost predicate Follows(callback: Callback, make: Builders, table: Table, op: Operation, replies: seq<Reply>) {
    forall record: Record, n: nat {:trigger Step(make, table, op, record, replies, n)} ::
      callback(record, n) == Step(make, table, op, record, replies, n)
  }

  /** The callback passed to `map` for one operation on one table. */
  function CallbackOf(make: Builders, table: Table, op: Operation, replies: seq<Reply>): (c: Callback)
    ensures Follows(c, make, table, op, replies)
  {
    (record: Record, n: nat) => Step(make, table, op, record, replies, n)
  }

  /** The callbacks of createOperation, updateOperation and deleteOperation
      for one table. */
  datatype Callbacks = Callbacks(create: Callback, update: Callback, remove: Callback)

  ghost predicate FollowAll(callbacks: Callbacks, make: Builders, table: Table, replies: seq<Reply>) {
    && Follows(callbacks.create, make, table, Add, replies)
    && Follows(callbacks.update, make, table, Update, replies)
    && Follows(callbacks.remove, make, table, Remove, replies)
  }

  function CallbacksOf(make: Builders, table: Table, replies: seq<Reply>): (c: Callbacks)
    ensures FollowAll(c, make, table, replies)
  {
    Callbacks(CallbackOf(make, table, Add, replies), CallbackOf(make, table, Update, replies),
              CallbackOf(make, table, Remove, replies))
  }

  /** Every call the callback makes goes to `table`. */
  ghost predicate SendsTo(callback: Callback, table: Table) {
    forall record: Record, n: nat {:trigger AllTo(callback(record, n).sent, table)} :: AllTo(callback(record, n).sent, table)
  }

  lemma FollowsSendsTo(callback: Callback, make: Builders, table: Table, op: Operation, replies: seq<Reply>)
    requires Follows(callback, make, table, op, replies)
    ensures SendsTo(callback, table)
  {
    forall record: Record, n: nat ensures callback(record, n) == Step(make, table, op, record, replies, n) {
      assert callback(record, n) == Step(make, table, op, record, replies, n);
    }
  }

  /** Each of the three callbacks calls only `table`. */
  ghost predicate SendsAllTo(callbacks: Callbacks, table: Table) {
    SendsTo(callbacks.create, table) && SendsTo(callbacks.update, table) && SendsTo(callbacks.remove, table)
  }

  /** The callbacks of one table call only that table. */
  lemma FollowAllSendsTo(callbacks: Callbacks, make: Builders, table: Table, replies: seq<Reply>)
    requires FollowAll(callbacks, make, table, replies)
    ensures SendsAllTo(callbacks, table)
  {
    FollowsSendsTo(callbacks.create, make, table, Add, replies);
    FollowsSendsTo(callbacks.update, make, table, Update, replies);
    FollowsSendsTo(callbacks.remove, make, table, Remove, replies);
  }

  // -------------------------------------------------------------- batches

  /** Promise.all's outcome: the elements in record order, or a failure. */
  function Join(rows: Result<seq<Row>>, row: Result<Row>): Result<seq<Row>> {
    match rows
    case Err(e) => Err(e)
    case Ok(rs) => match row case Err(e) => Err(e) case Ok(x) => Ok(rs + [x])
  }

  /** `Promise.all(records.map(callback))` over the first `count` records:
      every record's callback runs, even after an earlier one failed; the
      batch yields the elements in record order, or the first failure in
      record order. */
  function Batch(callback: Callback, records: seq<Record>, count: nat, n: nat): Run<seq<Row>>
    requires count <= |records|
  {
    if count == 0 then Run([], Ok([]))
    else
      var init := Batch(callback, records, count - 1, n);
      var last := callback(records[count - 1], n + |init.sent|);
      Run(init.sent + last.sent, Join(init.result, last.result))
  }

  /** Every call of a batch goes to the table of its callback. */
  lemma {:induction false} BatchTable(callback: Callback, table: Table, records: seq<Record>, count: nat, n: nat)
    requires count <= |records|
    requires SendsTo(callback, table)
    ensures AllTo(Batch(callback, records, count, n).sent, table)
  {
    if count > 0 {
      var init := Batch(callback, records, count - 1, n);
      BatchTable(callback, table, records, count - 1, n);
      var last := callback(records[count - 1], n + |init.sent|);
      AllToTable(init.sent, last.sent, table);
    }
  }

  /** Two lists of calls to one table make one. */
  lemma AllToTable(a: seq<Request>, b: seq<Request>, table: Table)
    requires AllTo(a, table) && AllTo(b, table)
    ensures AllTo(a + b, table)
  {
    forall k | 0 <= k < |a + b| ensures (a + b)[k].table == table {
      if k < |a| {
        assert (a + b)[k] == a[k];
      } else {
        assert (a + b)[k] == b[k - |a|];
      }
    }
  }

  /** The calls a create batch over the first `count` records makes: one
      POST per record whose body builds, in record order. */
  function CreatePosts(make: Builders, table: Table, records: seq<Record>, count: nat): (r: seq<Request>)
    requires count <= |records|
    ensures |r| <= count
  {
    if count == 0 then []
    else
      var body := make.create(table, records[count - 1]);
      CreatePosts(make, table, records, count - 1) + (if body.Ok? then [Post(table, body.value)] else [])
  }

  /** When every body builds, a create batch makes exactly one call per
      record. */
  lemma {:induction false} CreateSent(make: Builders, table: Table, records: seq<Record>, count: nat)
    requires count <= |records|
    requires forall i :: 0 <= i < count ==> Creatable(make, table, records[i])
    ensures |CreatePosts(make, table, records, count)| == count
  {
    if count > 0 {
      CreateSent(make, table, records, count - 1);
      assert Creatable(make, table, records[count - 1]);
    }
  }

  /** A create batch POSTs every record whose body builds, whatever happens
      to the others, and succeeds exactly when every body builds and every
      POST is answered. */
  lemma {:induction false} CreateBatch(callback: Callback, make: Builders, table: Table, records: seq<Record>,
                                       count: nat, replies: seq<Reply>, n: nat)
    requires count <= |records|
    requires Follows(callback, make, table, Add, replies)
    ensures var b := Batch(callback, records, count, n);
      && b.sent == CreatePosts(make, table, records, count)
      && (b.result.Ok? <==>
            (forall i :: 0 <= i < count ==> Creatable(make, table, records[i]))
            && (forall k :: n <= k < n + count ==> ReplyAt(replies, k).Answered?))
  {
    if count > 0 {
      CreateBatch(callback, make, table, records, count - 1, replies, n);
      var init := Batch(callback, records, count - 1, n);
      var k := n + |init.sent|;
      assert callback(records[count - 1], k) == Step(make, table, Add, records[count - 1], replies, k);
      if init.result.Ok? {
        CreateSent(make, table, records, count - 1);
        assert |init.sent| == count - 1;
      }
    }
  }

  /** A create batch that succeeds reports, in record order, each record's
      phantom id with the sys_id of its own POST. */
  lemma {:induction false} CreateRows(callback: Callback, make: Builders, table: Table, records: seq<Record>,
                                      count: nat, replies: seq<Reply>, n: nat)
    requires count <= |records|
    requires Follows(callback, make, table, Add, replies)
    ensures var b := Batch(callback, records, count, n);
      b.result.Ok? ==>
        && |b.sent| == |b.result.value| == count
        && (forall k :: n <= k < n + count ==> ReplyAt(replies, k).Answered?)
        && forall i :: 0 <= i < count ==>
             b.result.value[i] == Created(Get(records[i], "$PhantomId"), ReplyAt(replies, n + i).sysId)
  {
    if count > 0 {
      CreateRows(callback, make, table, records, count - 1, replies, n);
      var init := Batch(callback, records, count - 1, n);
      var k := n + |init.sent|;
      var last := Step(make, table, Add, records[count - 1], replies, k);
      assert callback(records[count - 1], k) == last;
      var b := Batch(callback, records, count, n);
      if b.result.Ok? {
        assert b.result.value == init.result.value + [last.result.value];
        assert k == n + (count - 1);
        assert |b.sent| == |b.result.value| == count;
        assert last.result.Ok?;
        assert ReplyAt(replies, k).Answered?;
        assert last.result.value == Created(Get(records[count - 1], "$PhantomId"), ReplyAt(replies, k).sysId);
        forall i | 0 <= i < count
          ensures b.result.value[i] == Created(Get(records[i], "$PhantomId"), ReplyAt(replies, n + i).sysId)
        {
          if i < count - 1 {
            assert b.result.value[i] == init.result.value[i];
          }
        }
      }
    }
  }

  /** A remove batch DELETEs every record, in record order, whatever
      happens to the others, and succeeds exactly when every DELETE is
      answered. */
  lemma {:induction false} RemoveBatch(callback: Callback, make: Builders, table: Table, records: seq<Record>,
                                       count: nat, replies: seq<Reply>, n: nat)
    requires count <= |records|
    requires Follows(callback, make, table, Remove, replies)
    ensures var b := Batch(callback, records, count, n);
      && |b.sent| == count
      && (forall i :: 0 <= i < count ==> b.sent[i] == Delete(table, Get(records[i], "id")))
      && (b.result.Ok? <==> forall k :: n <= k < n + count ==> ReplyAt(replies, k).Answered?)
  {
    if count > 0 {
      RemoveBatch(callback, make, table, records, count - 1, replies, n);
      var k := n + count - 1;
      assert callback(records[count - 1], k) == Step(make, table, Remove, records[count - 1], replies, k);
    }
  }

  /** A task update batch that succeeds has PATCHed every task, in record
      order, with its update body, and resolves to undefined elements
      only. */
  lemma {:induction false} TaskUpdateRows(callback: Callback, make: Builders, records: seq<Record>,
                                          count: nat, replies: seq<Reply>, n: nat)
    requires count <= |records|
    requires Follows(callback, make, Tasks, Update, replies)
    ensures var b := Batch(callback, records, count, n);
      b.result.Ok? ==>
        && |b.result.value| == count && |b.sent| == count
        && forall i :: 0 <= i < count ==>
             && make.taskUpdate(records[i]).Ok?
             && b.sent[i] == Patch(Tasks, Get(records[i], "id"), make.taskUpdate(records[i]).value)
             && b.result.value[i] == NoRow
  {
    if count > 0 {
      TaskUpdateRows(callback, make, records, count - 1, replies, n);
      var k := n + |Batch(callback, records, count - 1, n).sent|;
      assert callback(records[count - 1], k) == Step(make, Tasks, Update, records[count - 1], replies, k);
    }
  }

  /** A dependency update batch that succeeds has DELETEd and re-POSTed
      each relation in turn, and reports, in record order, each record's id
      with the sys_id of its own POST. */
  lemma {:induction false} DependencyUpdateRows(callback: Callback, make: Builders, records: seq<Record>,
                                                count: nat, replies: seq<Reply>, n: nat)
    requires count <= |records|
    requires Follows(callback, make, Dependencies, Update, replies)
    ensures var b := Batch(callback, records, count, n);
      b.result.Ok? ==>
        && |b.result.value| == count && |b.sent| == 2 * count
        && forall i :: 0 <= i < count ==>
             && b.sent[2 * i] == Delete(Dependencies, Get(records[i], "id"))
             && make.dependencyUpdate(records[i]).Ok?
             && b.sent[2 * i + 1] == Post(Dependencies, Columns(make.dependencyUpdate(records[i]).value))
             && ReplyAt(replies, n + 2 * i + 1).Answered?
             && b.result.value[i] == Moved(Get(records[i], "id"), ReplyAt(replies, n + 2 * i + 1).sysId)
  {
    if count > 0 {
      DependencyUpdateRows(callback, make, records, count - 1, replies, n);
      var k := n + |Batch(callback, records, count - 1, n).sent|;
      assert callback(records[count - 1], k) == Step(make, Dependencies, Update, records[count - 1], replies, k);
    }
  }

  // --------------------------------------------------- applyTableChanges

  /** The changes of one table in a sync request; an absent (or falsy) key
      is None. */
  datatype Changes = Changes(added: Option<seq<Record>>, updated: Option<seq<Record>>, removed: Option<seq<Record>>)

  /** One phase of applyTableChanges: the batch of all the listed records,
      or nothing when the key is absent. */
  function Phase(callback: Callback, records: Option<seq<Record>>, n: nat): (r: Run<Option<seq<Row>>>)
    ensures records.None? ==> r == Run([], Ok(None))
    ensures records.Some? ==> r.result.Ok? ==> r.result.value.Some?
  {
    match records
    case None => Run([], Ok(None))
    case Some(rs) =>
      var b := Batch(callback, rs, |rs|, n);
      Run(b.sent, match b.result case Err(e) => Err(e) case Ok(rows) => Ok(Some(rows)))
  }

  /** The rows applyTableChanges returns: the update rows when there are
      some and the first is not undefined (`moreRows[0] == null` also holds
      for an empty array), the create rows otherwise. */
  function SelectRows(rows: Option<seq<Row>>, moreRows: Option<seq<Row>>): (r: Option<seq<Row>>)
    ensures r == moreRows <== moreRows.Some? && moreRows.value != [] && moreRows.value[0] != NoRow
    ensures r == rows <== moreRows.None? || moreRows.value == [] || moreRows.value[0] == NoRow
  {
    if moreRows.None? then rows
    else if moreRows.value == [] || moreRows.value[0] == NoRow then rows
    else moreRows
  }

  /** applyTableChanges: added, then updated, then removed; a failed phase
      stops the later ones. */
  function ApplyChanges(callbacks: Callbacks, changes: Changes, n: nat): Run<Option<seq<Row>>> {
    var added := Phase(callbacks.create, changes.added, n);
    if added.result.Err? then Run(added.sent, Err(added.result.error))
    else
      var updated := Phase(callbacks.update, changes.updated, n + |added.sent|);
      if updated.result.Err? then Run(added.sent + updated.sent, Err(updated.result.error))
      else
        var removed := Phase(callbacks.remove, changes.removed, n + |added.sent| + |updated.sent|);
        var sent := added.sent + updated.sent + removed.sent;
        if removed.result.Err? then Run(sent, Err(removed.result.error))
        else Run(sent, Ok(SelectRows(added.result.value, updated.result.value)))
  }

  /** Every call a phase makes goes to the table of its callback. */
  lemma PhaseTable(callback: Callback, table: Table, records: Option<seq<Record>>, n: nat)
    requires SendsTo(callback, table)
    ensures AllTo(Phase(callback, records, n).sent, table)
  {
    if records.Some? {
      BatchTable(callback, table, records.value, |records.value|, n);
    }
  }

  /** Every call applyTableChanges makes goes to its table. */
  lemma ApplyChangesTable(callbacks: Callbacks, table: Table, changes: Changes, n: nat)
    requires SendsAllTo(callbacks, table)
    ensures AllTo(ApplyChanges(callbacks, changes, n).sent, table)
  {
    var a := ApplyChanges(callbacks, changes, n);
    var added := Phase(callbacks.create, changes.added, n);
    PhaseTable(callbacks.create, table, changes.added, n);
    if added.result.Err? {
      assert a.sent == added.sent;
      return;
    }
    var updated := Phase(callbacks.update, changes.updated, n + |added.sent|);
    PhaseTable(callbacks.update, table, changes.updated, n + |added.sent|);
    AllToTable(added.sent, updated.sent, table);
    if updated.result.Err? {
      assert a.sent == added.sent + updated.sent;
      return;
    }
    var removed := Phase(callbacks.remove, changes.removed, n + |added.sent| + |updated.sent|);
    PhaseTable(callbacks.remove, table, changes.removed, n + |added.sent| + |updated.sent|);
    AllToTable(added.sent + updated.sent, removed.sent, table);
    assert a.sent == added.sent + updated.sent + removed.sent;
  }

  /** For tasks the update rows are all undefined, so applyTableChanges
      returns the create rows: present exactly when records were added. */
  lemma TaskChangesRows(callbacks: Callbacks, make: Builders, changes: Changes, replies: seq<Reply>, n: nat)
    requires Follows(callbacks.update, make, Tasks, Update, replies)
    ensures var a := ApplyChanges(callbacks, changes, n);
      a.result.Ok? ==>
        a.result.value == Phase(callbacks.create, changes.added, n).result.value
        && (a.result.value.Some? <==> changes.added.Some?)
  {
    var added := Phase(callbacks.create, changes.added, n);
    if changes.updated.Some? {
      var rs := changes.updated.value;
      TaskUpdateRows(callbacks.update, make, rs, |rs|, replies, n + |added.sent|);
    }
  }

  /** For dependencies, updated records replace the create rows: when some
      were updated the result is the update rows alone, even when records
      were also added; otherwise it is the create rows. */
  lemma DependencyChangesRows(callbacks: Callbacks, make: Builders, changes: Changes, replies: seq<Reply>, n: nat)
    requires Follows(callbacks.update, make, Dependencies, Update, replies)
    ensures var a := ApplyChanges(callbacks, changes, n);
      var added := Phase(callbacks.create, changes.added, n);
      var updated := Phase(callbacks.update, changes.updated, n + |added.sent|);
      a.result.Ok? ==>
        && (changes.updated.Some? && changes.updated.value != [] ==>
              && a.result.value == updated.result.value
              && |a.result.value.value| == |changes.updated.value|
              && forall i :: 0 <= i < |changes.updated.value| ==>
                   a.result.value.value[i].Moved? && a.result.value.value[i].oldId == Get(changes.updated.value[i], "id"))
        && (changes.updated.None? || changes.updated.value == [] ==> a.result.value == added.result.value)
  {
    var added := Phase(callbacks.create, changes.added, n);
    if changes.updated.Some? {
      var rs := changes.updated.value;
      DependencyUpdateRows(callbacks.update, make, rs, |rs|, replies, n + |added.sent|);
    }
  }

  // ----------------------------------------------------------------- sync

  /** The body of POST /api/sync; a falsy `tasks` or `dependencies` is None. */
  datatype SyncRequest = SyncRequest(requestId: Value, tasks: Option<Changes>, dependencies: Option<Changes>)

  /** The response: `{ requestId, success: true }` with a `tasks` and a
      `dependencies` key holding `{ rows }` when those rows are present, or
      `{ requestId, success: false, message }`. */
  datatype SyncResponse =
    | Synced(requestId: Value, tasks: Option<seq<Row>>, dependencies: Option<seq<Row>>)
    | SyncFailed(requestId: Value)

  const SyncFailedMessage: string := "There was an error syncing the data changes"

  datatype Exchange = Exchange(sent: seq<Request>, response: SyncResponse)

  function TableChanges(callbacks: Callbacks, changes: Option<Changes>, n: nat): Run<Option<seq<Row>>> {
    match changes
    case None => Run([], Ok(None))
    case Some(c) => ApplyChanges(callbacks, c, n)
  }

  /** The sync handler: the task changes, then the dependency changes; any
      failure turns the whole response into the error response. */
  function Sync(tasks: Callbacks, dependencies: Callbacks, request: SyncRequest, n: nat): Exchange {
    var t := TableChanges(tasks, request.tasks, n);
    if t.result.Err? then Exchange(t.sent, SyncFailed(request.requestId))
    else
      var d := TableChanges(dependencies, request.dependencies, n + |t.sent|);
      Exchange(t.sent + d.sent,
               if d.result.Err? then SyncFailed(request.requestId)
               else Synced(request.requestId, t.result.value, d.result.value))
  }

  /** The response echoes the request id, and its `tasks` key is present
      exactly when the request added tasks. */
  lemma SyncResponseKeys(tasks: Callbacks, dependencies: Callbacks, make: Builders, request: SyncRequest,
                         replies: seq<Reply>, n: nat)
    requires Follows(tasks.update, make, Tasks, Update, replies)
    ensures var r := Sync(tasks, dependencies, request, n).response;
      && r.requestId == request.requestId
      && (r.Synced? ==> (r.tasks.Some? <==> request.tasks.Some? && request.tasks.value.added.Some?))
  {
    TaskRowsKey(tasks, make, request.tasks, replies, n);
  }

  /** The `dependencies` key of a successful response is present exactly
      when the request added dependencies or updated some. */
  lemma SyncDependenciesKey(tasks: Callbacks, dependencies: Callbacks, make: Builders, request: SyncRequest,
                            replies: seq<Reply>, n: nat)
    requires Follows(dependencies.update, make, Dependencies, Update, replies)
    ensures var r := Sync(tasks, dependencies, request, n).response;
      r.Synced? ==>
        (r.dependencies.Some? <==>
           request.dependencies.Some?
           && (request.dependencies.value.added.Some?
               || (request.dependencies.value.updated.Some? && request.dependencies.value.updated.value != [])))
  {
    var t := TableChanges(tasks, request.tasks, n);
    DependencyRowsKey(dependencies, make, request.dependencies, replies, n + |t.sent|);
  }

  /** The task changes of a sync, when they succeed, give rows exactly when
      tasks were added. */
  lemma TaskRowsKey(callbacks: Callbacks, make: Builders, changes: Option<Changes>, replies: seq<Reply>, m: nat)
    requires Follows(callbacks.update, make, Tasks, Update, replies)
    ensures var t := TableChanges(callbacks, changes, m);
      t.result.Ok? ==> (t.result.value.Some? <==> changes.Some? && changes.value.added.Some?)
  {
    if changes.Some? {
      TaskChangesRows(callbacks, make, changes.value, replies, m);
    }
  }

  /** The dependency changes of a sync, when they succeed, give rows exactly
      when dependencies were added or some were updated. */
  lemma DependencyRowsKey(callbacks: Callbacks, make: Builders, changes: Option<Changes>, replies: seq<Reply>, m: nat)
    requires Follows(callbacks.update, make, Dependencies, Update, replies)
    ensures var d := TableChanges(callbacks, changes, m);
      d.result.Ok? ==>
        (d.result.value.Some? <==>
           changes.Some?
           && (changes.value.added.Some? || (changes.value.updated.Some? && changes.value.updated.value != [])))
  {
    if changes.Some? {
      DependencyChangesRows(callbacks, make, changes.value, replies, m);
    }
  }

  /** The task changes are applied first: every call a sync starts with is
      a task call; when the task changes fail no other call is made and the
      response is the error response, and when they succeed the task calls
      are followed by the calls of the dependency changes (all to the
      dependencies table, by TableChangesTable). This holds for any
      callbacks that each call only their own table, as the handler's do
      (FollowAllSendsTo). */
  lemma SyncOrder(tasks: Callbacks, dependencies: Callbacks, request: SyncRequest, n: nat)
    requires SendsAllTo(tasks, Tasks)
    ensures var x := Sync(tasks, dependencies, request, n);
      var t := TableChanges(tasks, request.tasks, n);
      var d := TableChanges(dependencies, request.dependencies, n + |t.sent|);
      && AllTo(t.sent, Tasks)
      && (t.result.Err? ==> x.sent == t.sent && x.response == SyncFailed(request.requestId))
      && (t.result.Ok? ==> x.sent == t.sent + d.sent)
  {
    TableChangesTable(tasks, Tasks, request.tasks, n);
    SyncSent(tasks, dependencies, request, n);
  }

  /** The calls of a sync, in terms of the calls of each table's changes. */
  lemma SyncSent(tasks: Callbacks, dependencies: Callbacks, request: SyncRequest, n: nat)
    ensures var x := Sync(tasks, dependencies, request, n);
      var t := TableChanges(tasks, request.tasks, n);
      var d := TableChanges(dependencies, request.dependencies, n + |t.sent|);
      x.sent == (if t.result.Ok? then t.sent + d.sent else t.sent)
  {
  }

  /** Every call the changes of one table cause goes to that table. */
  lemma TableChangesTable(callbacks: Callbacks, table: Table, changes: Option<Changes>, n: nat)
    requires SendsAllTo(callbacks, table)
    ensures AllTo(TableChanges(callbacks, changes, n).sent, table)
  {
    if changes.Some? {
      ApplyChangesTable(callbacks, table, changes.value, n);
    }
  }

  // ---------------------------------------------------- the handler itself

  /** The ServiceNow table API as the server sees it: the calls made so
      far, and the replies it gives them in turn. */
  class TableApi {
    var sent: seq<Request>
    const replies: seq<Reply>

    constructor (replies: seq<Reply>)
      ensures sent == [] && this.replies == replies
    {
      sent := [];
      this.replies := replies;
    }

    /** One awaited fetch. */
    method Send(req: Request) returns (reply: Reply)
      modifies this
      ensures sent == old(sent) + [req] && reply == ReplyAt(replies, |old(sent)|)
    {
      reply := ReplyAt(replies, |sent|);
      sent := sent + [req];
    }
  }

  /** One record's callback. */
  method ProcessRecord(api: TableApi, make: Builders, table: Table, op: Operation, record: Record)
    returns (row: Result<Row>)
    modifies api
    ensures var s := Step(make, table, op, record, api.replies, |old(api.sent)|);
      api.sent == old(api.sent) + s.sent && row == s.result
  {
    match op
    case Add =>
      var body := make.create(table, record);
      if body.Err? {
        return Err(body.error);
      }
      var reply := api.Send(Post(table, body.value));
      row := if reply.Failed? then Err(RequestFailed) else Ok(Created(Get(record, "$PhantomId"), reply.sysId));
    case Update =>
      var id := Get(record, "id");
      match table {
        case Tasks =>
          var body := make.taskUpdate(record);
          if body.Err? {
            return Err(body.error);
          }
          var reply := api.Send(Patch(Tasks, id, body.value));
          row := if reply.Failed? then Err(RequestFailed) else Ok(NoRow);
        case Dependencies =>
          var body := make.dependencyUpdate(record);
          if body.Err? {
            return Err(body.error);
          }
          var reply := api.Send(Delete(Dependencies, id));
          if reply.Failed? {
            return Err(RequestFailed);
          }
          reply := api.Send(Post(Dependencies, Columns(body.value)));
          row := if reply.Failed? then Err(RequestFailed) else Ok(Moved(id, reply.sysId));
      }
    case Remove =>
      var reply := api.Send(Delete(table, Get(record, "id")));
      row := if reply.Failed? then Err(RequestFailed) else Ok(NoRow);
  }

  /** createOperation, updateOperation or deleteOperation:
      `Promise.all(records.map(callback))`, one record after the other.
      `callback` names the callback's specification. */
  method RunBatch(api: TableApi, make: Builders, table: Table, op: Operation, records: seq<Record>,
                  ghost callback: Callback)
    returns (rows: Result<seq<Row>>)
    requires Follows(callback, make, table, op, api.replies)
    modifies api
    ensures var b := Batch(callback, records, |records|, |old(api.sent)|);
      api.sent == old(api.sent) + b.sent && rows == b.result
  {
    ghost var start := api.sent;
    ghost var done := Run([], Ok([]));
    rows := Ok([]);
    for i := 0 to |records|
      invariant done == Batch(callback, records, i, |start|)
      invariant api.sent == start + done.sent && rows == done.result
    {
      ghost var k := |start| + |done.sent|;
      var row := ProcessRecord(api, make, table, op, records[i]);
      ghost var step := Step(make, table, op, records[i], api.replies, k);
      assert callback(records[i], k) == step;
      Assoc(start, done.sent, step.sent);
      done := Run(done.sent + step.sent, Join(done.result, step.result));
      if rows.Ok? {
        if row.Err? {
          rows := Err(row.error);
        } else {
          rows := Ok(rows.value + [row.value]);
        }
      }
    }
  }

  /** One phase of applyTableChanges: when the key is present, the batch
      over its records. */
  method RunPhase(api: TableApi, make: Builders, table: Table, op: Operation, records: Option<seq<Record>>,
                  ghost callback: Callback)
    returns (rows: Result<Option<seq<Row>>>)
    requires Follows(callback, make, table, op, api.replies)
    modifies api
    ensures var p := Phase(callback, records, |old(api.sent)|);
      api.sent == old(api.sent) + p.sent && rows == p.result
  {
    rows := Ok(None);
    if records.Some? {
      var batch := RunBatch(api, make, table, op, records.value, callback);
      rows := if batch.Err? then Err(batch.error) else Ok(Some(batch.value));
    }
  }

  /** applyTableChanges; `callbacks` names the specifications of the
      table's callbacks. */
  method ApplyTableChanges(api: TableApi, make: Builders, table: Table, changes: Changes, ghost callbacks: Callbacks)
    returns (r: Result<Option<seq<Row>>>)
    requires FollowAll(callbacks, make, table, api.replies)
    modifies api
    ensures var a := ApplyChanges(callbacks, changes, |old(api.sent)|);
      api.sent == old(api.sent) + a.sent && r == a.result
  {
    ghost var start := api.sent;
    ghost var added := Phase(callbacks.create, changes.added, |start|);
    var rows := RunPhase(api, make, table, Add, changes.added, callbacks.create);
    if rows.Err? {
      return Err(rows.error);
    }
    assert api.sent == start + added.sent;
    ghost var updated := Phase(callbacks.update, changes.updated, |start| + |added.sent|);
    var moreRows := RunPhase(api, make, table, Update, changes.updated, callbacks.update);
    Assoc(start, added.sent, updated.sent);
    if moreRows.Err? {
      return Err(moreRows.error);
    }
    assert api.sent == start + (added.sent + updated.sent);
    ghost var removed := Phase(callbacks.remove, changes.removed, |start| + |added.sent| + |updated.sent|);
    var deleted := RunPhase(api, make, table, Remove, changes.removed, callbacks.remove);
    Assoc(start, added.sent + updated.sent, removed.sent);
    if deleted.Err? {
      return Err(deleted.error);
    }
    if moreRows.value.None? || moreRows.value.value == [] || moreRows.value.value[0] == NoRow {
      return Ok(rows.value);
    }
    return Ok(moreRows.value);
  }

  /** The POST /api/sync handler. The server builds its callbacks with
      `CallbacksOf(HandlerBuilders(project), table, replies)`; `tasks` and
      `dependencies` name their specifications. */
  method HandleSync(api: TableApi, make: Builders, request: SyncRequest, ghost tasks: Callbacks, ghost dependencies: Callbacks)
    returns (response: SyncResponse)
    requires FollowAll(tasks, make, Tasks, api.replies)
    requires FollowAll(dependencies, make, Dependencies, api.replies)
    modifies api
    ensures var x := Sync(tasks, dependencies, request, |old(api.sent)|);
      api.sent == old(api.sent) + x.sent && response == x.response
  {
    ghost var start := api.sent;
    var taskRows: Option<seq<Row>> := None;
    var dependencyRows: Option<seq<Row>> := None;
    ghost var t := TableChanges(tasks, request.tasks, |start|);
    if request.tasks.Some? {
      var rows := ApplyTableChanges(api, make, Tasks, request.tasks.value, tasks);
      if rows.Err? {
        return SyncFailed(request.requestId);
      }
      taskRows := rows.value;
    }
    assert api.sent == start + t.sent && t.result == Ok(taskRows);
    ghost var d := TableChanges(dependencies, request.dependencies, |start| + |t.sent|);
    if request.dependencies.Some? {
      var rows := ApplyTableChanges(api, make, Dependencies, request.dependencies.value, dependencies);
      Assoc(start, t.sent, d.sent);
      if rows.Err? {
        return SyncFailed(request.requestId);
      }
      dependencyRows := rows.value;
    }
    assert api.sent == start + (t.sent + d.sent) && d.result == Ok(dependencyRows);
    response := Synced(request.requestId, taskRows, dependencyRows);
  }
}

