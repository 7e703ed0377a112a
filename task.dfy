/** The persisted `Task` entity: four private fields behind getters and setters. */
module Model {
  import opened Wrappers
  import opened Fields

  class Task {
    /** Primary key; `None` until the store assigns one on first save. */
    var id: Option<int>
    var title: Option<string>
    var description: Option<string>
    var completed: bool

    /** The entity's current field values. */
    function State(): TaskFields
      reads this
    {
      TaskFields(id, title, description, completed)
    }

    /** The no-argument constructor required by the persistence layer. */
    constructor ()
      ensures State() == Blank
    {
      id, title, description, completed := None, None, None, false;
    }

    /** The convenience constructor: content given, id left unassigned. */
    constructor FromContent(title: Option<string>, description: Option<string>, completed: bool)
      ensures State() == TaskFields(None, title, description, completed)
    {
      this.id := None;
      this.title := title;
      this.description := description;
      this.completed := completed;
    }

    method GetId() returns (r: Option<int>)
      ensures r == id
    {
      r := id;
    }

    method GetTitle() returns (r: Option<string>)
      ensures r == title
    {
      r := title;
    }

    method GetDescription() returns (r: Option<string>)
      ensures r == description
    {
      r := description;
    }

    method IsCompleted() returns (r: bool)
      ensures r == completed
    {
      r := completed;
    }

    method SetId(v: Option<int>)
      modifies this
      ensures State() == old(State()).(id := v)
    {
      id := v;
    }

    method SetTitle(v: Option<string>)
      modifies this
      ensures State() == old(State()).(title := v)
    {
      title := v;
    }

    method SetDescription(v: Option<string>)
      modifies this
      ensures State() == old(State()).(description := v)
    {
      description := v;
    }

    method SetCompleted(v: bool)
      modifies this
      ensures State() == old(State()).(completed := v)
    {
      completed := v;
    }
  }

  /** The field values of a list of entities, in list order. */
  function States(tasks: seq<Task>): (r: seq<TaskFields>)
    reads tasks
    ensures |r| == |tasks|
    ensures forall i :: 0 <= i < |tasks| ==> r[i] == tasks[i].State()
  {
    if tasks == [] then [] else [tasks[0].State()] + States(tasks[1..])
  }
}
