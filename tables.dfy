/** A backend table as the services see it: rows keyed by id, each carrying the
    `is_active` flag that the "single active row" operations maintain. Updates
    run one after the other; the network and concurrent sessions are not part
    of this model. */
module Tables {
  import opened Wrappers

  datatype Row<T> = Row(record: T, isActive: bool)

  /** Ids of the rows whose `is_active` is true. */
  ghost function ActiveIds<T>(rows: map<string, Row<T>>): set<string> {
    set k | k in rows && rows[k].isActive
  }

  /** The rows with their `is_active` flags forgotten. */
  ghost function Records<T>(rows: map<string, Row<T>>): map<string, T> {
    map k | k in rows :: rows[k].record
  }

  /** At most one row is active. */
  ghost predicate SingleActive<T>(rows: map<string, Row<T>>) {
    forall a, b :: a in ActiveIds(rows) && b in ActiveIds(rows) ==> a == b
  }

  class Table<T> {
    var rows: map<string, Row<T>>

    constructor(rows: map<string, Row<T>>)
      ensures this.rows == rows
    {
      this.rows := rows;
    }

    /** `update({ is_active: false }).not('id', 'is', null)`: every row (all rows
        have an id) becomes inactive; nothing else changes. A failed write
        (`dbError`) changes nothing. */
    method DeactivateAll(dbError: Option<string>)
      modifies this
      ensures dbError.Some? ==> rows == old(rows)
      ensures rows.Keys == old(rows).Keys && Records(rows) == Records(old(rows))
      ensures dbError.None? ==>
        && (forall k :: k in rows ==> rows[k] == old(rows)[k].(isActive := false))
        && ActiveIds(rows) == {}
    {
      if dbError.None? {
        rows := map k | k in rows :: rows[k].(isActive := false);
      }
    }

    /** `update({ is_active: true }).eq('id', id)`: the row with that id, if any,
        becomes active; nothing else changes. A failed write changes nothing. */
    method ActivateWhere(id: string, dbError: Option<string>)
      modifies this
      ensures dbError.None? && id in old(rows) ==> rows == old(rows)[id := old(rows)[id].(isActive := true)]
      ensures dbError.Some? || id !in old(rows) ==> rows == old(rows)
      ensures rows.Keys == old(rows).Keys && Records(rows) == Records(old(rows))
      ensures ActiveIds(rows) == ActiveIds(old(rows)) + (if dbError.None? && id in old(rows) then {id} else {})
    {
      if dbError.None? && id in rows {
        rows := rows[id := rows[id].(isActive := true)];
      }
    }

    /** `insert([...]).select().single()` with the id the database assigns: the new
        row is stored inactive and returned; a failed write (or a clashing id)
        stores nothing and yields null. */
    method Insert(id: string, record: T, dbError: Option<string>) returns (inserted: Option<Row<T>>)
      modifies this
      ensures dbError.Some? || id in old(rows) ==> inserted == None && rows == old(rows)
      ensures dbError.None? && id !in old(rows) ==>
        inserted == Some(Row(record, false)) && rows == old(rows)[id := Row(record, false)]
    {
      var resp: Response<Row<T>> :=
        if dbError.Some? then Err(dbError.value)
        else if id in rows then Err("duplicate key")
        else Ok(Row(record, false));
      inserted := RecordOrNull(resp);
      if inserted.Some? {
        rows := rows[id := inserted.value];
      }
    }

    /** `delete().eq('id', id)`: removes the row if present; the result reports only
        whether the write failed. */
    method Delete(id: string, dbError: Option<string>) returns (ok: bool)
      modifies this
      ensures ok <==> dbError.None?
      ensures rows == if ok then old(rows) - {id} else old(rows)
    {
      ok := WriteSucceeded(dbError);
      if ok {
        rows := rows - {id};
      }
    }
  }
}
