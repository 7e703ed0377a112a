/**
 * The task service. Its repository is replaced by the table it stands for:
 * `rows` maps each primary key to the stored row, and `nextId` is the identity
 * sequence that numbers new rows. Every lookup hands out a new entity object
 * loaded from its row, as the persistence layer does.
 */
module Service {
  import opened Wrappers
  import opened Fields
  import opened Model
  import opened Store

  class TaskService {
    var rows: map<int, TaskFields>
    var nextId: int

    /** The table as a value. */
    function Contents(): Table
      reads this
    {
      Table(rows, nextId)
    }

    ghost predicate Valid()
      reads this
    {
      Contents().Valid()
    }

    /** A service over an empty table. */
    constructor ()
      ensures Valid() && Contents() == Empty
    {
      rows, nextId := map[], 1;
    }

    /** A new entity object loaded from a stored row. */
    static method Load(row: TaskFields) returns (task: Task)
      ensures fresh(task)
      ensures task.State() == row
    {
      task := new Task();
      task.SetId(row.id);
      task.SetTitle(row.title);
      task.SetDescription(row.description);
      task.SetCompleted(row.completed);
    }

    /** Some key of a non-empty key set. */
    static method Pick(keys: set<int>) returns (k: int)
      requires keys != {}
      ensures k in keys
    {
      NonEmptyHasKey(keys);
      k :| k in keys;
    }

    /** All stored tasks, each exactly once, as new entity objects; the order is the table's own. */
    method ObtenerTodos() returns (tasks: seq<Task>)
      requires Valid()
      ensures forall i :: 0 <= i < |tasks| ==> fresh(tasks[i])
      ensures Enumerates(rows, States(tasks))
    {
      tasks := [];
      var left := rows.Keys;
      while left != {}
        invariant left <= rows.Keys
        invariant forall i :: 0 <= i < |tasks| ==> fresh(tasks[i])
        invariant forall i :: 0 <= i < |tasks| ==>
          tasks[i].id.Some? && tasks[i].id.value in rows && tasks[i].id.value !in left
          && tasks[i].State() == rows[tasks[i].id.value]
        invariant forall i, j :: 0 <= i < j < |tasks| ==> tasks[i].id != tasks[j].id
        invariant forall k :: k in rows && k !in left ==> exists i :: 0 <= i < |tasks| && tasks[i].id == Some(k)
        decreases left
      {
        var k := Pick(left);
        var task := Load(rows[k]);
        ghost var before := tasks;
        tasks := tasks + [task];
        left := left - {k};
        forall k' | k' in rows && k' !in left
          ensures exists i :: 0 <= i < |tasks| && tasks[i].id == Some(k')
        {
          if k' == k {
            assert tasks[|tasks| - 1].id == Some(k');
          } else {
            var i :| 0 <= i < |before| && before[i].id == Some(k');
            assert tasks[i] == before[i];
          }
        }
      }
    }

    /** The task stored under `id`, as a new entity object, or nothing. */
    method ObtenerPorId(id: int) returns (r: Option<Task>)
      requires Valid()
      ensures r.Some? <==> id in rows
      ensures r.Some? ==> fresh(r.value) && r.value.State() == rows[id] && r.value.id == Some(id)
    {
      if id in rows {
        var task := Load(rows[id]);
        r := Some(task);
      } else {
        r := None;
      }
    }

    /** Removes the row under `id`; an absent id leaves the table as it is. */
    method EliminarTask(id: int)
      requires Valid()
      modifies this
      ensures Valid()
      ensures Contents() == DeleteById(old(Contents()), id)
    {
      rows := rows - {id};
    }

    /**
     * Saves `task`: without an id it is inserted under a new key, which is also
     * written into `task`; with a stored id that row is overwritten. Saving an
     * id the table does not hold is not pinned down beyond keeping the table
     * valid and storing what is returned.
     */
    method GuardarTask(task: Task) returns (saved: Task)
      requires Valid()
      modifies this, task
      ensures Valid()
      ensures var r := Save(old(Contents()), old(task.State()));
        r.Some? ==> Contents() == r.value.0 && saved.State() == r.value.1
      ensures saved.id.Some? && saved.id.value in rows && rows[saved.id.value] == saved.State()
      ensures forall k :: k in old(rows) && k != saved.id.value ==> k in rows && rows[k] == old(rows)[k]
      ensures old(task.id).None? ==> saved == task
      ensures old(task.id).Some? ==> task.State() == old(task.State())
    {
      match task.id
      case None =>
        task.SetId(Some(nextId));
        rows := rows[nextId := task.State()];
        nextId := nextId + 1;
        saved := task;
      case Some(k) =>
        if k in rows {
          rows := rows[k := task.State()];
          saved := task;
        } else {
          // An instance with an id the table does not know: stored as a new row
          // under a generated key, through a new managed copy.
          saved := Load(task.State().(id := Some(nextId)));
          rows := rows[nextId := saved.State()];
          nextId := nextId + 1;
        }
    }
  }
}
