/**
 * The four fields that the persisted `Task` entity and the `TaskDTO` transport
 * object both carry. A value of `TaskFields` is the state of either object;
 * `null` is `None`.
 */
module Fields {
  import opened Wrappers

  datatype TaskFields = TaskFields(
    id: Option<int>,
    title: Option<string>,
    description: Option<string>,
    completed: bool)

  /** The fields of a freshly constructed entity or DTO: all references null, `completed` false. */
  const Blank: TaskFields := TaskFields(None, None, None, false)

  /**
   * What `updateEntityFromDTO` makes of an entity: everything but the id is
   * taken from the DTO, the id is the entity's own.
   */
  function Overwrite(entity: TaskFields, dto: TaskFields): (r: TaskFields)
    ensures r.id == entity.id
    ensures r.(id := dto.id) == dto
  {
    entity.(title := dto.title, description := dto.description, completed := dto.completed)
  }

  /** Applying the same DTO twice is the same as applying it once. */
  lemma OverwriteIdempotent(entity: TaskFields, dto: TaskFields)
    ensures Overwrite(Overwrite(entity, dto), dto) == Overwrite(entity, dto)
  {
  }

  /** The result depends on the entity only through its id. */
  lemma OverwriteForgetsOldContent(e1: TaskFields, e2: TaskFields, dto: TaskFields)
    requires e1.id == e2.id
    ensures Overwrite(e1, dto) == Overwrite(e2, dto)
  {
  }
}
