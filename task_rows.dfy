/**
 * The task table as a sequence of rows, in the order the store lists them,
 * and its view as a map from identifier to task. The row operations here are
 * the effects of the store's find, insert, overwrite and remove.
 */
module TaskRows {
  import opened GuidText
  import opened Entities

  /** The table keyed by identifier (an earlier row wins over a later one with the same id). */
  function AsMap(rows: seq<TaskEntity>): (m: map<Guid, TaskEntity>)
    ensures forall id :: id in m ==> m[id].id == id
  {
    if rows == [] then map[] else AsMap(rows[1..])[rows[0].id := rows[0]]
  }

  /** No two rows share an identifier: the store's primary key. */
  predicate DistinctIds(rows: seq<TaskEntity>)
  {
    rows == [] || (rows[0].id !in AsMap(rows[1..]) && DistinctIds(rows[1..]))
  }

  /** Find by primary key: the first row with that identifier. */
  function Lookup(rows: seq<TaskEntity>, id: Guid): Option<TaskEntity>
  {
    if rows == [] then None
    else if rows[0].id == id then Some(rows[0])
    else Lookup(rows[1..], id)
  }

  /** Overwrite the row that has t's identifier with t, in place. */
  function Replace(rows: seq<TaskEntity>, t: TaskEntity): seq<TaskEntity>
  {
    if rows == [] then []
    else [if rows[0].id == t.id then t else rows[0]] + Replace(rows[1..], t)
  }

  /** Remove the row that has the given identifier, keeping the order of the others. */
  function RemoveId(rows: seq<TaskEntity>, id: Guid): seq<TaskEntity>
  {
    if rows == [] then []
    else if rows[0].id == id then RemoveId(rows[1..], id)
    else [rows[0]] + RemoveId(rows[1..], id)
  }

  /** Find agrees with the map view: it finds a task exactly when one is stored under that id. */
  lemma {:induction false} LookupAsMap(rows: seq<TaskEntity>, id: Guid)
    ensures Lookup(rows, id) == if id in AsMap(rows) then Some(AsMap(rows)[id]) else None
  {
    if rows != [] && rows[0].id != id {
      LookupAsMap(rows[1..], id);
    }
  }

  /** Appending a row with a fresh identifier adds exactly that entry and keeps the key unique. */
  lemma {:induction false} AppendAsMap(rows: seq<TaskEntity>, t: TaskEntity)
    requires DistinctIds(rows)
    requires t.id !in AsMap(rows)
    ensures DistinctIds(rows + [t])
    ensures AsMap(rows + [t]) == AsMap(rows)[t.id := t]
  {
    if rows == [] {
      assert rows + [t] == [t];
    } else {
      assert (rows + [t])[1..] == rows[1..] + [t];
      AppendAsMap(rows[1..], t);
    }
  }

  /** Overwriting by identifier changes that one entry and keeps the keys and their uniqueness. */
  lemma {:induction false} ReplaceAsMap(rows: seq<TaskEntity>, t: TaskEntity)
    requires DistinctIds(rows)
    ensures |Replace(rows, t)| == |rows|
    ensures DistinctIds(Replace(rows, t))
    ensures AsMap(Replace(rows, t)) == if t.id in AsMap(rows) then AsMap(rows)[t.id := t] else AsMap(rows)
  {
    if rows != [] {
      ReplaceAsMap(rows[1..], t);
      var r := Replace(rows, t);
      assert r[1..] == Replace(rows[1..], t);
    }
  }

  /** Removing by identifier drops exactly that entry, keeps the key unique, and shortens the table by one row when the entry was there. */
  lemma {:induction false} RemoveAsMap(rows: seq<TaskEntity>, id: Guid)
    requires DistinctIds(rows)
    ensures DistinctIds(RemoveId(rows, id))
    ensures AsMap(RemoveId(rows, id)) == AsMap(rows) - {id}
    ensures |RemoveId(rows, id)| == if id in AsMap(rows) then |rows| - 1 else |rows|
  {
    if rows != [] {
      RemoveAsMap(rows[1..], id);
      var r := RemoveId(rows, id);
      if rows[0].id != id {
        assert r[1..] == RemoveId(rows[1..], id);
      }
    }
  }

  /** Each row is the map view's entry for its own identifier. */
  lemma {:induction false} AsMapAt(rows: seq<TaskEntity>, i: nat)
    requires DistinctIds(rows)
    requires i < |rows|
    ensures rows[i].id in AsMap(rows) && AsMap(rows)[rows[i].id] == rows[i]
  {
    if i > 0 {
      AsMapAt(rows[1..], i - 1);
      assert rows[i] == rows[1..][i - 1];
    }
  }

  /** With unique identifiers the map view has one entry per row. */
  lemma {:induction false} AsMapSize(rows: seq<TaskEntity>)
    requires DistinctIds(rows)
    ensures |AsMap(rows)| == |rows|
  {
    if rows != [] {
      AsMapSize(rows[1..]);
      assert AsMap(rows).Keys == AsMap(rows[1..]).Keys + {rows[0].id};
    }
  }

  /** Every entry of the map view comes from some row. */
  lemma {:induction false} AsMapRow(rows: seq<TaskEntity>, id: Guid)
    requires id in AsMap(rows)
    ensures exists i :: 0 <= i < |rows| && rows[i].id == id
  {
    if rows[0].id != id {
      AsMapRow(rows[1..], id);
      var j :| 0 <= j < |rows[1..]| && rows[1..][j].id == id;
      assert rows[j + 1].id == id;
    }
  }
}
