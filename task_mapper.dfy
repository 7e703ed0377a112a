/** Field-by-field conversion between the `Task` entity and the `TaskDTO` transport object. */
module Mapper {
  import opened Fields
  import opened Model
  import opened Dto

  class TaskMapper {

    constructor ()
    {
    }

    /** A new DTO carrying exactly the entity's four fields. */
    method ToDTO(task: Task) returns (dto: TaskDTO)
      ensures fresh(dto)
      ensures dto.State() == task.State()
    {
      var id := task.GetId();
      var title := task.GetTitle();
      var description := task.GetDescription();
      var completed := task.IsCompleted();
      dto := new TaskDTO.FromFields(id, title, description, completed);
    }

    /** A new entity, filled through its setters, carrying exactly the DTO's four fields (the id included). */
    method ToEntity(dto: TaskDTO) returns (task: Task)
      ensures fresh(task)
      ensures task.State() == dto.State()
    {
      task := new Task();
      var id := dto.GetId();
      task.SetId(id);
      var title := dto.GetTitle();
      task.SetTitle(title);
      var description := dto.GetDescription();
      task.SetDescription(description);
      var completed := dto.IsCompleted();
      task.SetCompleted(completed);
    }

    /** Overwrites the entity's title, description and completed flag with the DTO's; the id stays. */
    method UpdateEntityFromDTO(dto: TaskDTO, task: Task)
      modifies task
      ensures task.State() == Overwrite(old(task.State()), dto.State())
      ensures dto.State() == old(dto.State())
    {
      var title := dto.GetTitle();
      task.SetTitle(title);
      var description := dto.GetDescription();
      task.SetDescription(description);
      var completed := dto.IsCompleted();
      task.SetCompleted(completed);
    }
  }

  /** Entity to DTO and back gives a distinct entity with the same fields. */
  method EntityRoundTrip(mapper: TaskMapper, task: Task) returns (back: Task)
    ensures fresh(back)
    ensures back.State() == task.State()
  {
    var dto := mapper.ToDTO(task);
    back := mapper.ToEntity(dto);
  }

  /** DTO to entity and back gives a distinct DTO with the same fields. */
  method DTORoundTrip(mapper: TaskMapper, dto: TaskDTO) returns (back: TaskDTO)
    ensures fresh(back)
    ensures back.State() == dto.State()
  {
    var task := mapper.ToEntity(dto);
    back := mapper.ToDTO(task);
  }

  /** Applying the same DTO twice leaves the entity as applying it once does. */
  method UpdateTwice(mapper: TaskMapper, dto: TaskDTO, task: Task)
    modifies task
    ensures task.State() == Overwrite(old(task.State()), dto.State())
  {
    mapper.UpdateEntityFromDTO(dto, task);
    mapper.UpdateEntityFromDTO(dto, task);
    OverwriteIdempotent(old(task.State()), dto.State());
  }
}
