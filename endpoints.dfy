/**
 * What each endpoint of the task controller answers and what it leaves in the
 * table, as functions of the table; and the controller as a state machine over
 * sequences of requests.
 */
module Endpoints {
  import opened Wrappers
  import opened Fields
  import opened Store

  /** An HTTP response: the status code and the DTO fields sent as body, if any. */
  datatype Response = Response(status: int, body: Option<TaskFields>)

  const Ok := 200
  const NoContent := 204
  const NotFound := 404

  /** GET /tasks/{id}: 200 with the stored task, or 404 with no body. */
  function GetResult(tb: Table, id: int): (r: Response)
    ensures r.status == Ok <==> id in tb.rows
    ensures r.status == Ok ==> r.body == Some(tb.rows[id])
    ensures r.status != Ok ==> r == Response(NotFound, None)
  {
    match FindById(tb, id)
    case Some(task) => Response(Ok, Some(task))
    case None => Response(NotFound, None)
  }

  /**
   * POST /tasks: the DTO, id included, is saved; the answer is 200 with the
   * saved task. Without an id this is a new row under a fresh key; with a
   * stored id it overwrites that row. `None` where the save is not determined.
   */
  function CreateResult(tb: Table, dto: TaskFields): (r: Option<(Table, Response)>)
    ensures r.None? <==> dto.id.Some? && dto.id.value !in tb.rows
    ensures r.Some? ==> var (tb', resp) := r.value;
      && resp.status == Ok
      && resp.body.Some? && resp.body.value.(id := dto.id) == dto
      && resp.body.value.id.Some?
      && var key := resp.body.value.id.value;
      && tb'.rows.Keys == tb.rows.Keys + {key}
      && tb'.rows[key] == resp.body.value
      && (forall k :: k in tb.rows && k != key ==> tb'.rows[k] == tb.rows[k])
      && (dto.id.Some? ==> key == dto.id.value)
      && (tb.Valid() && dto.id.None? ==> key !in tb.rows)
      && (tb.Valid() ==> tb'.Valid())
  {
    match Save(tb, dto)
    case Some((tb', saved)) => Some((tb', Response(Ok, Some(saved))))
    case None => None
  }

  /**
   * PUT /tasks/{id}: 404 with no body and an unchanged table when `id` is not
   * stored; otherwise the stored task takes the DTO's title, description and
   * completed flag, keeps its id, and is answered with 200.
   */
  function UpdateResult(tb: Table, id: int, dto: TaskFields): (r: (Table, Response))
    requires tb.Valid()
    ensures r.1.status == Ok || r.1.status == NotFound
    ensures r.1.status == Ok <==> id in tb.rows
    ensures r.1.status == NotFound ==> r == (tb, Response(NotFound, None))
    ensures r.1.status == Ok ==>
      && r.1.body == Some(dto.(id := Some(id)))
      && r.0 == Table(tb.rows[id := dto.(id := Some(id))], tb.nextId)
    ensures r.0.Valid()
  {
    match FindById(tb, id)
    case None => (tb, Response(NotFound, None))
    case Some(existing) =>
      var updated := Overwrite(existing, dto);
      match Save(tb, updated)
      case Some((tb', saved)) => (tb', Response(Ok, Some(saved)))
      case None => assert false; (tb, Response(NotFound, None))
  }

  /** DELETE /tasks/{id}: 204 and the row removed when stored, else 404; never a body. */
  function DeleteResult(tb: Table, id: int): (r: (Table, Response))
    ensures r.1.status == NoContent <==> id in tb.rows
    ensures r.1 == Response(if id in tb.rows then NoContent else NotFound, None)
    ensures r.0.rows == tb.rows - {id} && r.0.nextId == tb.nextId
    ensures tb.Valid() ==> r.0.Valid()
  {
    match FindById(tb, id)
    case Some(_) => (DeleteById(tb, id), Response(NoContent, None))
    case None => (tb, Response(NotFound, None))
  }

  /** A request to the controller, with its path id and body. */
  datatype Request =
    | GetAll
    | GetById(id: int)
    | Create(dto: TaskFields)
    | Update(id: int, dto: TaskFields)
    | Delete(id: int)

  /** The table after one request; `None` where the outcome is not determined. */
  function Step(tb: Table, req: Request): (r: Option<Table>)
    requires tb.Valid()
    ensures r.Some? ==> r.value.Valid()
  {
    match req
    case GetAll => Some(tb)
    case GetById(_) => Some(tb)
    case Create(dto) =>
      (match CreateResult(tb, dto)
       case Some((tb', _)) => Some(tb')
       case None => None)
    case Update(id, dto) => Some(UpdateResult(tb, id, dto).0)
    case Delete(id) => Some(DeleteResult(tb, id).0)
  }

  /** The table after a sequence of requests, served one after another. */
  function Run(tb: Table, reqs: seq<Request>): (r: Option<Table>)
    requires tb.Valid()
    decreases |reqs|
  {
    if reqs == [] then Some(tb)
    else match Step(tb, reqs[0])
      case None => None
      case Some(tb') => Run(tb', reqs[1..])
  }

  /** Could the request change the row under key `k`: an update or delete of `k`, or a create whose body id is `k`? */
  predicate Targets(req: Request, k: int) {
    match req
    case GetAll => false
    case GetById(_) => false
    case Create(dto) => dto.id == Some(k)
    case Update(id, _) => id == k
    case Delete(id) => id == k
  }

  /** Every served sequence of requests leaves a valid table. */
  lemma {:induction false} RunPreservesValid(tb: Table, reqs: seq<Request>)
    requires tb.Valid()
    requires Run(tb, reqs).Some?
    ensures Run(tb, reqs).value.Valid()
    decreases |reqs|
  {
    if reqs != [] {
      var tb' := Step(tb, reqs[0]).value;
      RunPreservesValid(tb', reqs[1..]);
    }
  }

  /** A stored task that no request names comes out of any served sequence unchanged. */
  lemma {:induction false} RunKeepsUntargeted(tb: Table, reqs: seq<Request>, k: int)
    requires tb.Valid()
    requires k in tb.rows
    requires forall i :: 0 <= i < |reqs| ==> !Targets(reqs[i], k)
    requires Run(tb, reqs).Some?
    ensures k in Run(tb, reqs).value.rows
    ensures Run(tb, reqs).value.rows[k] == tb.rows[k]
    decreases |reqs|
  {
    if reqs != [] {
      var tb' := Step(tb, reqs[0]).value;
      assert !Targets(reqs[0], k);
      assert k in tb'.rows && tb'.rows[k] == tb.rows[k];
      RunKeepsUntargeted(tb', reqs[1..], k);
    }
  }

  /** One request never brings back a key the identity sequence has already passed. */
  lemma StepNeverRevives(tb: Table, req: Request, k: int)
    requires tb.Valid()
    requires k !in tb.rows && k < tb.nextId
    requires Step(tb, req).Some?
    ensures k !in Step(tb, req).value.rows && k < Step(tb, req).value.nextId
  {
  }

  /** A deleted (or never issued) key below the identity sequence is never reused by any served sequence. */
  lemma {:induction false} RunNeverRevives(tb: Table, reqs: seq<Request>, k: int)
    requires tb.Valid()
    requires k !in tb.rows && k < tb.nextId
    requires Run(tb, reqs).Some?
    ensures k !in Run(tb, reqs).value.rows
    decreases |reqs|
  {
    if reqs != [] {
      StepNeverRevives(tb, reqs[0], k);
      RunNeverRevives(Step(tb, reqs[0]).value, reqs[1..], k);
    }
  }

  /** After a successful delete, looking the id up answers 404. */
  lemma DeleteThenGetNotFound(tb: Table, id: int)
    requires id in tb.rows
    ensures DeleteResult(tb, id).1.status == NoContent
    ensures GetResult(DeleteResult(tb, id).0, id) == Response(NotFound, None)
  {
  }

  /** After a successful update, looking the id up answers what the update answered. */
  lemma UpdateThenGet(tb: Table, id: int, dto: TaskFields)
    requires tb.Valid() && id in tb.rows
    ensures GetResult(UpdateResult(tb, id, dto).0, id) == UpdateResult(tb, id, dto).1
  {
  }

  /**
   * A create whose body carries the id of a stored task does not add a task:
   * the mapper copies the id through, so the save overwrites that task.
   */
  lemma CreateWithStoredIdOverwrites(tb: Table, dto: TaskFields)
    requires tb.Valid()
    requires dto.id.Some? && dto.id.value in tb.rows
    ensures CreateResult(tb, dto).Some?
    ensures var (tb', resp) := CreateResult(tb, dto).value;
      && tb'.rows == tb.rows[dto.id.value := dto]
      && |tb'.rows| == |tb.rows|
      && resp == Response(Ok, Some(dto))
  {
  }

  /** After a create, looking up the answered id answers the same task. */
  lemma CreateThenGet(tb: Table, dto: TaskFields)
    requires CreateResult(tb, dto).Some?
    ensures var (tb', resp) := CreateResult(tb, dto).value;
      GetResult(tb', resp.body.value.id.value) == resp
  {
  }

  /**
   * The walk-through of the service: create, read, update, delete, read again,
   * starting from an empty database.
   */
  lemma BuyMilkScenario()
    ensures var posted := TaskFields(None, Some("Buy milk"), Some("2%"), false);
      var created := posted.(id := Some(1));
      var put := TaskFields(None, Some("Buy milk"), Some("Whole"), true);
      var updated := put.(id := Some(1));
      var (t1, r1) := CreateResult(Empty, posted).value;
      var (t2, r2) := UpdateResult(t1, 1, put);
      var (t3, r3) := DeleteResult(t2, 1);
      && r1 == Response(Ok, Some(created))
      && GetResult(t1, 1) == Response(Ok, Some(created))
      && r2 == Response(Ok, Some(updated))
      && r3 == Response(NoContent, None)
      && GetResult(t3, 1) == Response(NotFound, None)
  {
  }
}
