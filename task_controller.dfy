/**
 * The task controller: each endpoint asks the service, converts through the
 * mapper, and turns presence or absence into a status code. Routing and JSON
 * binding are not modelled; a response carries the DTO's fields as its body.
 */
module Controller {
  import opened Wrappers
  import opened Fields
  import opened Model
  import opened Dto
  import opened Mapper
  import opened Store
  import opened Service
  import opened Endpoints

  class TaskController {
    const service: TaskService
    const mapper: TaskMapper

    constructor (service: TaskService, mapper: TaskMapper)
      ensures this.service == service && this.mapper == mapper
    {
      this.service := service;
      this.mapper := mapper;
    }

    /** GET /tasks: every stored task exactly once, as DTO fields, in the service's list order. */
    method GetAllTasks() returns (body: seq<TaskFields>)
      requires service.Valid()
      ensures Enumerates(service.rows, body)
    {
      var tasks := service.ObtenerTodos();
      ghost var listed := States(tasks);
      body := [];
      var i := 0;
      while i < |tasks|
        invariant 0 <= i <= |tasks|
        invariant body == listed[..i]
        invariant forall j :: 0 <= j < |tasks| ==> tasks[j].State() == listed[j]
      {
        var dto := mapper.ToDTO(tasks[i]);
        body := body + [dto.State()];
        i := i + 1;
      }
      assert body == listed;
    }

    /** GET /tasks/{id}: 200 with the task, or 404 with no body. */
    method GetTaskById(id: int) returns (resp: Response)
      requires service.Valid()
      ensures resp == GetResult(service.Contents(), id)
    {
      var found := service.ObtenerPorId(id);
      match found
      case Some(task) =>
        var dto := mapper.ToDTO(task);
        resp := Response(Ok, Some(dto.State()));
      case None =>
        resp := Response(NotFound, None);
    }

    /** POST /tasks: saves the DTO as a new entity and answers 200 with the saved task. */
    method CreateTask(dto: TaskDTO) returns (resp: Response)
      requires service.Valid()
      modifies service
      ensures service.Valid()
      ensures var r := CreateResult(old(service.Contents()), dto.State());
        r.Some? ==> (service.Contents(), resp) == r.value
      ensures resp.status == Ok && resp.body.Some? && resp.body.value.id.Some?
      ensures resp.body.value.id.value in service.rows
      ensures service.rows[resp.body.value.id.value] == resp.body.value
      ensures forall k :: k in old(service.rows) && k != resp.body.value.id.value ==>
        k in service.rows && service.rows[k] == old(service.rows)[k]
    {
      var nueva := mapper.ToEntity(dto);
      var guardada := service.GuardarTask(nueva);
      var out := mapper.ToDTO(guardada);
      resp := Response(Ok, Some(out.State()));
    }

    /** PUT /tasks/{id}: 404 when absent; otherwise overwrites the stored task's content and answers 200. */
    method UpdateTask(id: int, dto: TaskDTO) returns (resp: Response)
      requires service.Valid()
      modifies service
      ensures service.Valid()
      ensures (service.Contents(), resp) == UpdateResult(old(service.Contents()), id, dto.State())
    {
      var found := service.ObtenerPorId(id);
      if found.None? {
        resp := Response(NotFound, None);
        return;
      }
      var existente := found.value;
      mapper.UpdateEntityFromDTO(dto, existente);
      var actualizada := service.GuardarTask(existente);
      var out := mapper.ToDTO(actualizada);
      resp := Response(Ok, Some(out.State()));
    }

    /** DELETE /tasks/{id}: 204 and the task removed when present, else 404 and nothing changes. */
    method DeleteTask(id: int) returns (resp: Response)
      requires service.Valid()
      modifies service
      ensures service.Valid()
      ensures (service.Contents(), resp) == DeleteResult(old(service.Contents()), id)
    {
      var found := service.ObtenerPorId(id);
      if found.Some? {
        service.EliminarTask(id);
        resp := Response(NoContent, None);
      } else {
        resp := Response(NotFound, None);
      }
    }
  }
}
