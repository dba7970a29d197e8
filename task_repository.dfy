/**
 * The persistence port as the task service sees it: the repository over the
 * task table and the unit of work's commit, which share one database context.
 *
 * The context keeps a working set of tracked rows. Add, Update and Delete
 * only stage changes in it; SaveChanges commits the working set to the table
 * in one step and is counted, so that callers can state how often they commit.
 */
module Persistence {
  import opened GuidText
  import opened Entities
  import opened TaskRows

  class TaskRepository {
    /** Rows as the context's change tracker sees them, staged changes included. */
    var tracked: seq<TaskEntity>
    /** Rows committed to the table, in the order the table lists them. */
    var stored: seq<TaskEntity>
    /** How many times the context has committed. */
    var saves: nat

    ghost predicate Valid()
      reads this
    {
      DistinctIds(tracked) && DistinctIds(stored)
    }

    /** No staged change is waiting to be committed. */
    ghost predicate Clean()
      reads this
    {
      tracked == stored
    }

    /** The committed table, keyed by identifier. */
    ghost function Tasks(): map<Guid, TaskEntity>
      reads this
    {
      AsMap(stored)
    }

    /** The working set, keyed by identifier. */
    ghost function Working(): map<Guid, TaskEntity>
      reads this
    {
      AsMap(tracked)
    }

    /** A context over an existing table, with nothing staged and nothing yet committed. */
    constructor (rows: seq<TaskEntity>)
      requires DistinctIds(rows)
      ensures Valid() && Clean()
      ensures stored == rows && saves == 0
    {
      tracked := rows;
      stored := rows;
      saves := 0;
    }

    /** Find by primary key, staged changes included. */
    method GetById(id: Guid) returns (t: Option<TaskEntity>)
      ensures t.Some? <==> id in Working()
      ensures t.Some? ==> t.value == Working()[id] && t.value.id == id
    {
      t := Lookup(tracked, id);
      LookupAsMap(tracked, id);
    }

    /** The committed rows, in table order. */
    method GetAll() returns (rows: seq<TaskEntity>)
      requires Valid()
      ensures DistinctIds(rows)
      ensures AsMap(rows) == Tasks()
      ensures rows == stored
    {
      rows := stored;
    }

    /** Stage the insertion of a row whose key is not yet tracked. */
    method Add(t: TaskEntity)
      requires Valid()
      requires t.id !in Working()
      modifies this`tracked
      ensures Valid()
      ensures tracked == old(tracked) + [t]
      ensures Working() == old(Working())[t.id := t]
    {
      AppendAsMap(tracked, t);
      tracked := tracked + [t];
    }

    /** Stage the overwrite of the tracked row with t's key. */
    method Update(t: TaskEntity)
      requires Valid()
      requires t.id in Working()
      modifies this`tracked
      ensures Valid()
      ensures tracked == Replace(old(tracked), t)
      ensures Working() == old(Working())[t.id := t]
    {
      ReplaceAsMap(tracked, t);
      tracked := Replace(tracked, t);
    }

    /** Stage the removal of the tracked row with t's key. */
    method Delete(t: TaskEntity)
      requires Valid()
      requires t.id in Working()
      modifies this`tracked
      ensures Valid()
      ensures tracked == RemoveId(old(tracked), t.id)
      ensures Working() == old(Working()) - {t.id}
    {
      RemoveAsMap(tracked, t.id);
      tracked := RemoveId(tracked, t.id);
    }

    /** Commit every staged change at once. */
    method SaveChanges()
      requires Valid()
      modifies this`stored, this`saves
      ensures Valid() && Clean()
      ensures stored == tracked
      ensures saves == old(saves) + 1
    {
      stored := tracked;
      saves := saves + 1;
    }
  }
}
