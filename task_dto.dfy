/** The `TaskDTO` transport object: the same four fields, exchanged with clients. */
module Dto {
  import opened Wrappers
  import opened Fields

  class TaskDTO {
    /** Identifier of the task; `None` in a task that is not yet created. */
    var id: Option<int>
    var title: Option<string>
    var description: Option<string>
    var completed: bool

    /** The DTO's current field values. */
    function State(): TaskFields
      reads this
    {
      TaskFields(id, title, description, completed)
    }

    /** The no-argument constructor used by JSON deserialisation. */
    constructor ()
      ensures State() == Blank
    {
      id, title, description, completed := None, None, None, false;
    }

    /** The full constructor: every field given. */
    constructor FromFields(id: Option<int>, title: Option<string>, description: Option<string>, completed: bool)
      ensures State() == TaskFields(id, title, description, completed)
    {
      this.id := id;
      this.title := title;
      this.description := description;
      this.completed := completed;
    }

    method GetId() returns (r: Option<int>)
      ensures r == id
    {
      r := id;
    }

    method GetTitle() returns (r: Option<string>)
      ensures r == title
    {
      r := title;
    }

    method GetDescription() returns (r: Option<string>)
      ensures r == description
    {
      r := description;
    }

    method IsCompleted() returns (r: bool)
      ensures r == completed
    {
      r := completed;
    }

    method SetId(v: Option<int>)
      modifies this
      ensures State() == old(State()).(id := v)
    {
      id := v;
    }

    method SetTitle(v: Option<string>)
      modifies this
      ensures State() == old(State()).(title := v)
    {
      title := v;
    }

    method SetDescription(v: Option<string>)
      modifies this
      ensures State() == old(State()).(description := v)
    {
      description := v;
    }

    method SetCompleted(v: bool)
      modifies this
      ensures State() == old(State()).(completed := v)
    {
      completed := v;
    }
  }
}
