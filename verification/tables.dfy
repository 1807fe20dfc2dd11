/** A relational table with a server-assigned serial id, as the store's four
    tables behave: rows in insertion order, each with a unique positive id,
    and a counter that hands out the next id. */
module Tables {
  import opened Common

  datatype Row<T> = Row(id: int, data: T)

  datatype Table<T> = Table(rows: seq<Row<T>>, nextId: int)

  /** An empty table; serial ids start at 1. */
  function Empty<T>(): (t: Table<T>)
    ensures WellFormed(t) && Ids(t.rows) == {}
  {
    Table([], 1)
  }

  function Ids<T>(rows: seq<Row<T>>): (ids: set<int>)
    ensures forall i :: 0 <= i < |rows| ==> rows[i].id in ids
    ensures forall id :: id in ids ==> exists i :: 0 <= i < |rows| && rows[i].id == id
  {
    if |rows| == 0 then {} else {rows[0].id} + Ids(rows[1..])
  }

  /** No two rows share an id. */
  ghost predicate UniqueIds<T>(rows: seq<Row<T>>)
  {
    forall i, j :: 0 <= i < j < |rows| ==> rows[i].id != rows[j].id
  }

  /** The serial invariant: ids are unique, positive and below the counter. */
  ghost predicate WellFormed<T>(t: Table<T>)
  {
    && t.nextId >= 1
    && UniqueIds(t.rows)
    && (forall i :: 0 <= i < |t.rows| ==> 1 <= t.rows[i].id < t.nextId)
  }

  /** `SELECT ... WHERE id = $id`, taking the first (and, in a valid table,
      only) matching row. */
  function Find<T>(rows: seq<Row<T>>, id: int): (r: Option<Row<T>>)
    ensures r.Some? <==> id in Ids(rows)
    ensures r.Some? ==> r.value in rows && r.value.id == id
  {
    if |rows| == 0 then None
    else if rows[0].id == id then Some(rows[0])
    else Find(rows[1..], id)
  }

  /** `INSERT ... RETURNING`: the new row gets the counter's value as id. */
  function Insert<T>(t: Table<T>, data: T): (res: (Table<T>, Row<T>))
    requires WellFormed(t)
    ensures res.1.data == data
    ensures res.1.id !in Ids(t.rows)
    ensures res.0.rows == t.rows + [res.1]
    ensures WellFormed(res.0)
  {
    var row := Row(t.nextId, data);
    (Table(t.rows + [row], t.nextId + 1), row)
  }

  /** The rows after `UPDATE ... SET data WHERE id = $id`. */
  function Replace<T>(rows: seq<Row<T>>, id: int, data: T): (rs: seq<Row<T>>)
    ensures |rs| == |rows|
    ensures forall i :: 0 <= i < |rows| ==>
      rs[i] == (if rows[i].id == id then Row(id, data) else rows[i])
  {
    if |rows| == 0 then []
    else [if rows[0].id == id then Row(id, data) else rows[0]] + Replace(rows[1..], id, data)
  }

  /** `UPDATE ... RETURNING`: None and no change when the id is absent. */
  function Update<T>(t: Table<T>, id: int, data: T): (res: (Table<T>, Option<Row<T>>))
    requires WellFormed(t)
    ensures id !in Ids(t.rows) ==> res.0 == t && res.1 == None
    ensures id in Ids(t.rows) ==> res.1 == Some(Row(id, data))
    ensures res.0.nextId == t.nextId && |res.0.rows| == |t.rows|
    ensures forall i :: 0 <= i < |t.rows| ==>
      res.0.rows[i] == (if t.rows[i].id == id then Row(id, data) else t.rows[i])
    ensures WellFormed(res.0)
  {
    if id in Ids(t.rows) then
      var rs := Replace(t.rows, id, data);
      (Table(rs, t.nextId), Some(Row(id, data)))
    else
      assert Replace(t.rows, id, data) == t.rows;
      (t, None)
  }

  /** The rows after `DELETE ... WHERE id = $id`. */
  function Remove<T(!new)>(rows: seq<Row<T>>, id: int): (rs: seq<Row<T>>)
    ensures id !in Ids(rs)
    ensures forall r :: r in rs <==> r in rows && r.id != id
    ensures id !in Ids(rows) ==> rs == rows
    ensures |rs| <= |rows|
  {
    if |rows| == 0 then []
    else if rows[0].id == id then Remove(rows[1..], id)
    else [rows[0]] + Remove(rows[1..], id)
  }

  lemma {:induction false} RemovePreservesUnique<T(!new)>(rows: seq<Row<T>>, id: int)
    requires UniqueIds(rows)
    ensures UniqueIds(Remove(rows, id))
  {
    if |rows| > 0 {
      RemovePreservesUnique(rows[1..], id);
      if rows[0].id != id {
        var rs := Remove(rows, id);
        assert rs == [rows[0]] + Remove(rows[1..], id);
        forall i, j | 0 <= i < j < |rs|
          ensures rs[i].id != rs[j].id
        {
          if i == 0 {
            assert rs[j] in Remove(rows[1..], id);
            assert rs[j] in rows[1..];
          }
        }
      }
    }
  }

  /** `DELETE ... RETURNING`, reporting whether a row was removed. */
  function Delete<T(!new)>(t: Table<T>, id: int): (res: (Table<T>, bool))
    requires WellFormed(t)
    ensures res.1 <==> id in Ids(t.rows)
    ensures id !in Ids(res.0.rows)
    ensures forall r :: r in res.0.rows <==> r in t.rows && r.id != id
    ensures !res.1 ==> res.0 == t
    ensures res.0.nextId == t.nextId
    ensures WellFormed(res.0)
  {
    RemovePreservesUnique(t.rows, id);
    (Table(Remove(t.rows, id), t.nextId), id in Ids(t.rows))
  }

  /** Rows whose data satisfies `p`, in table order (`SELECT ... WHERE`). */
  function Where<T(!new)>(rows: seq<Row<T>>, p: T -> bool): (rs: seq<Row<T>>)
    ensures forall r :: r in rs <==> r in rows && p(r.data)
    ensures |rs| <= |rows|
  {
    if |rows| == 0 then []
    else if p(rows[0].data) then [rows[0]] + Where(rows[1..], p)
    else Where(rows[1..], p)
  }

  /** Inserting a row and then looking its id up yields that row. */
  lemma InsertThenFind<T>(t: Table<T>, data: T)
    requires WellFormed(t)
    ensures Find(Insert(t, data).0.rows, Insert(t, data).1.id) == Some(Insert(t, data).1)
  {
    var (t', row) := Insert(t, data);
    FindAppend(t.rows, [row], row.id);
  }

  lemma {:induction false} FindAppend<T>(a: seq<Row<T>>, b: seq<Row<T>>, id: int)
    requires id !in Ids(a)
    ensures Find(a + b, id) == Find(b, id)
  {
    if |a| > 0 {
      assert (a + b)[1..] == a[1..] + b;
      assert a[0] in a;
      FindAppend(a[1..], b, id);
    } else {
      assert a + b == b;
    }
  }

  /** In a table with unique ids, Find returns the one row carrying the id. */
  lemma {:induction false} FindUnique<T>(rows: seq<Row<T>>, i: int)
    requires UniqueIds(rows)
    requires 0 <= i < |rows|
    ensures Find(rows, rows[i].id) == Some(rows[i])
  {
    if i > 0 {
      assert rows[0].id != rows[i].id;
      assert rows[1..][i - 1] == rows[i];
      FindUnique(rows[1..], i - 1);
    }
  }
}
