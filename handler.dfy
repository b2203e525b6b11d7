/** The bodies the sync handler builds from the records of a request. */
module Handler {
  import opened Wrappers
  import opened Js
  import opened Utils
  import opened Payloads
  import opened Calls

  /** The POST body of an added record (the record without its phantom id);
      `project` is the configured project sys_id. */
  function CreateBody(table: Table, data: Record, project: Value): (r: Result<Body>)
    ensures table == Tasks ==> (r.Ok? <==> TaskCreatePayload(data, project).Ok?)
    ensures table == Dependencies ==> (r.Ok? <==> DependencyCreatePayload(data).Ok?)
  {
    match table
    case Tasks =>
      (var p :- TaskCreatePayload(data, project); Ok(TaskRow(p)))
    case Dependencies =>
      (var p :- DependencyCreatePayload(data); Ok(DependencyRow(p)))
  }

  /** The handler's builders: each destructures the record (dropping the
      phantom id, or the id) and builds the payload from the rest;
      `project` is the configured project sys_id. */
  function HandlerBuilders(project: Value): (b: Builders)
    ensures forall table, record {:trigger b.create(table, record)} ::
              b.create(table, record) == CreateBody(table, Without(record, "$PhantomId"), project)
    ensures forall record {:trigger b.taskUpdate(record)} :: b.taskUpdate(record) == TaskUpdateOf(Without(record, "id"))
    ensures forall record {:trigger b.dependencyUpdate(record)} ::
              b.dependencyUpdate(record) == DependencyUpdateOf(Without(record, "id"))
  {
    Builders(
      (table: Table, record: Record) => CreateBody(table, Without(record, "$PhantomId"), project),
      (record: Record) => TaskUpdateOf(Without(record, "id")),
      (record: Record) => DependencyUpdateOf(Without(record, "id")))
  }

  /** Dropping the phantom id keeps every other property. */
  lemma KeptWithoutPhantom(record: Record, key: string)
    requires key != "$PhantomId"
    ensures Get(Without(record, "$PhantomId"), key) == Get(record, key)
  {
  }

  /** An added task's POST body builds exactly when both of its dates
      parse; the phantom id plays no part. */
  lemma TaskBodyBuilds(record: Record, project: Value)
    ensures CreateBody(Tasks, Without(record, "$PhantomId"), project).Ok? <==>
              NewDate(Get(record, "startDate")).Some? && NewDate(Get(record, "endDate")).Some?
  {
    KeptWithoutPhantom(record, "startDate");
    KeptWithoutPhantom(record, "endDate");
  }

  /** An added relation's POST body builds exactly when its type and its
      lag convert. */
  lemma DependencyBodyBuilds(record: Record, project: Value)
    ensures CreateBody(Dependencies, Without(record, "$PhantomId"), project).Ok? <==>
              ServiceNowDepType(Get(record, "type")).Ok? && ServiceNowDepLag(Get(record, "lag"), Get(record, "lagUnit")).Ok?
  {
    KeptWithoutPhantom(record, "type");
    KeptWithoutPhantom(record, "lag");
    KeptWithoutPhantom(record, "lagUnit");
  }

  /** With the handler's builders, then, an added record is created
      exactly when its body builds as above. */
  lemma HandlerCreatable(project: Value, record: Record)
    ensures Creatable(HandlerBuilders(project), Tasks, record) <==>
              NewDate(Get(record, "startDate")).Some? && NewDate(Get(record, "endDate")).Some?
    ensures Creatable(HandlerBuilders(project), Dependencies, record) <==>
              ServiceNowDepType(Get(record, "type")).Ok? && ServiceNowDepLag(Get(record, "lag"), Get(record, "lagUnit")).Ok?
  {
    TaskBodyBuilds(record, project);
    DependencyBodyBuilds(record, project);
  }
}
