/**
 * What the task table holds and what the repository's operations do to it.
 * The repository of the source has no code of its own; its behaviour here is
 * the one the service's comments state: list all, find by id, delete by id,
 * and save, which creates when the id is absent and updates when it is present.
 */
module Store {
  import opened Wrappers
  import opened Fields

  /** The task table, keyed by primary key, and the identity sequence: the key the next insert gets. */
  datatype Table = Table(rows: map<int, TaskFields>, nextId: int) {

    /** Every row sits under its own id, and every key was issued by the identity sequence (which starts at 1). */
    ghost predicate Valid() {
      && 1 <= nextId
      && forall k :: k in rows ==> rows[k].id == Some(k) && 1 <= k < nextId
    }
  }

  /** A fresh database: no rows, identity sequence at 1. */
  const Empty: Table := Table(map[], 1)

  /** The row stored under `id`, if any. */
  function FindById(tb: Table, id: int): (r: Option<TaskFields>)
    ensures r.Some? <==> id in tb.rows
    ensures r.Some? ==> r.value == tb.rows[id]
    ensures r.Some? && tb.Valid() ==> r.value.id == Some(id)
  {
    if id in tb.rows then Some(tb.rows[id]) else None
  }

  /**
   * Save (upsert). Without an id the row is inserted under the next key of the
   * identity sequence; with an id that is stored, that row is overwritten.
   * Saving an id that is not stored is not determined here (`None`).
   * On success the result is the new table and the saved row.
   */
  function Save(tb: Table, t: TaskFields): (r: Option<(Table, TaskFields)>)
    ensures r.None? <==> t.id.Some? && t.id.value !in tb.rows
    ensures r.Some? ==> var (tb', saved) := r.value;
      && saved.(id := t.id) == t
      && saved.id.Some?
      && (t.id.Some? ==> saved.id == t.id)
      && tb'.rows.Keys == tb.rows.Keys + {saved.id.value}
      && tb'.rows[saved.id.value] == saved
      && (forall k :: k in tb.rows && Some(k) != saved.id ==> tb'.rows[k] == tb.rows[k])
      && tb'.nextId >= tb.nextId
      && (tb.Valid() ==> tb'.Valid())
      && (tb.Valid() && t.id.None? ==> saved.id.value !in tb.rows)
      && (t.id.None? ==> saved.id == Some(tb.nextId) && tb'.nextId == tb.nextId + 1)
      && (t.id.Some? ==> tb'.nextId == tb.nextId)
  {
    match t.id
    case None =>
      var saved := t.(id := Some(tb.nextId));
      Some((Table(tb.rows[tb.nextId := saved], tb.nextId + 1), saved))
    case Some(k) =>
      if k in tb.rows then Some((Table(tb.rows[k := t], tb.nextId), t)) else None
  }

  /** Delete by id: the row under `id` is gone, every other row and the identity sequence stay. */
  function DeleteById(tb: Table, id: int): (r: Table)
    ensures r.rows.Keys == tb.rows.Keys - {id}
    ensures forall k :: k in r.rows ==> r.rows[k] == tb.rows[k]
    ensures r.nextId == tb.nextId
    ensures tb.Valid() ==> r.Valid()
  {
    Table(tb.rows - {id}, tb.nextId)
  }

  /** `s` lists the rows of `rows` exactly once each, in some order. */
  ghost predicate Enumerates(rows: map<int, TaskFields>, s: seq<TaskFields>) {
    && (forall i :: 0 <= i < |s| ==> s[i].id.Some? && s[i].id.value in rows && rows[s[i].id.value] == s[i])
    && (forall i, j :: 0 <= i < j < |s| ==> s[i].id != s[j].id)
    && (forall k :: k in rows ==> exists i :: 0 <= i < |s| && s[i].id == Some(k))
  }

  /** A listing has exactly as many entries as the table has rows. */
  lemma {:induction false} EnumeratesLength(rows: map<int, TaskFields>, s: seq<TaskFields>)
    requires Enumerates(rows, s)
    ensures |s| == |rows|
  {
    if s == [] {
      assert forall k :: k !in rows;
      assert rows == map[];
    } else {
      var n := |s| - 1;
      var k := s[n].id.value;
      var s', rows' := s[..n], rows - {k};
      forall k' | k' in rows'
        ensures exists i :: 0 <= i < |s'| && s'[i].id == Some(k')
      {
        var i :| 0 <= i < |s| && s[i].id == Some(k');
        assert i != n;
        assert s'[i] == s[i];
      }
      forall i | 0 <= i < |s'|
        ensures s'[i].id.Some? && s'[i].id.value in rows' && rows'[s'[i].id.value] == s'[i]
      {
        assert s'[i] == s[i];
        assert s[i].id != s[n].id;
      }
      EnumeratesLength(rows', s');
      assert rows.Keys == rows'.Keys + {k};
    }
  }

  /** A non-empty key set has a member to pick. */
  lemma NonEmptyHasKey(keys: set<int>)
    requires keys != {}
    ensures exists k :: k in keys
  {
    assert (forall k :: k !in keys) ==> keys == {};
  }
}
