/** The routes `SQLAlchemyCRUDRouter` (app/crud_sqlalchemy/sqlalchemy.py)
    generates for a table, over the same in-memory table as the DAO. The
    primary key is the table's first primary-key column, `id`, and item ids
    are integers. */
module CrudRouter {
  import opened Wrappers
  import opened Values
  import opened RowOrder
  import opened BaseDao

  /** What a route raises. */
  datatype RouteError =
    | NotFound                               // the `NOT_FOUND` HTTP error
    | Http(status: int, detail: string)
    | Unprocessable                          // `_raise`: a 422 carrying the driver's message
    | Raised(error: DaoError)                // anything else that escapes

  /** `GET /`: rows in key order; `skip` rows skipped, then at most `limit`
      (no limit when None). SQL applies OFFSET before LIMIT whatever order
      the query builder is called in. */
  function GetAll(t: Table, skip: nat, limit: Option<nat>): (r: seq<Record>)
    reads t
    ensures limit.None? ==> |r| == if skip >= |t.rows| then 0 else |t.rows| - skip
    ensures limit.Some? ==> r == t.GetMulti(skip, limit.value)
    ensures limit.None? ==> r == t.GetMulti(skip, |t.rows|)
    ensures forall i :: 0 <= i < |r| ==> r[i].id in t.rows && r[i].fields == t.rows[r[i].id]
    ensures forall i, j :: 0 <= i < j < |r| ==> r[i].id < r[j].id
  {
    var lim := if limit.Some? then limit.value else |t.rows|;
    t.KeyPageNoLimit(skip);
    var r := t.Records(t.KeyPage(skip, limit));
    assert r == t.GetMulti(skip, lim);
    r
  }

  /** With no limit and nothing skipped, `GET /` lists every row once. */
  lemma GetAllListsEveryRow(t: Table, k: int)
    requires k in t.rows
    ensures exists i :: 0 <= i < |GetAll(t, 0, None)| && GetAll(t, 0, None)[i] == Record(k, t.rows[k])
  {
    var d := Ascending(t.Column(PrimaryKey), t.rows.Keys);
    var keys := t.KeyPage(0, None);
    assert keys == d by {
      assert |keys| == |d|;
      forall j | 0 <= j < |keys| ensures keys[j] == d[j] {
        assert keys[j] == Page(d, 0, None)[j];
      }
    }
    var i :| 0 <= i < |d| && d[i] == k;
    assert GetAll(t, 0, None)[i] == t.Records(keys)[i];
  }

  /** `GET /{item_id}`: the row, or NOT_FOUND. */
  function GetOne(t: Table, itemId: int): (r: Result<Record, RouteError>)
    reads t
    ensures r.Ok? <==> itemId in t.rows
    ensures r.Ok? ==> r.value == Record(itemId, t.rows[itemId])
    ensures r.Err? ==> r.error == NotFound
  {
    match t.GetOneOrNone(itemId)
    case Some(row) => Ok(Record(itemId, row))
    case None => Err(NotFound)
  }

  /** `POST /`: any integrity error (a key already taken, a NOT NULL column
      left empty) is rolled back and answered with 422 "Key already
      exists". */
  method Create(t: Table, key: Option<int>, fields: Row) returns (r: Result<Record, RouteError>)
    requires t.Valid()
    modifies t
    ensures t.Valid()
    ensures r.Err? ==> t.rows == old(t.rows)
    ensures (exists c :: c in fields && c !in t.columns) ==> r == Err(Raised(TypeError))
    ensures fields.Keys <= t.columns && r.Err? ==> r.error == Http(422, "Key already exists")
    ensures r.Ok? <==> (fields.Keys <= t.columns &&
      (forall c :: c in t.notNull ==> c in fields && fields[c] != Null) &&
      (if key.Some? then key.value else old(t.nextId)) !in old(t.rows))
    ensures r.Ok? ==> (r.value.id !in old(t.rows) &&
      r.value.fields == Complete(t.columns, fields) &&
      t.rows == old(t.rows)[r.value.id := r.value.fields])
  {
    var ins := t.Insert(key, fields);
    match ins
    case Ok(id) => r := Ok(Record(id, t.rows[id]));
    case Err(UnknownColumn(_)) => r := Err(Raised(TypeError));
    case Err(_) => r := Err(Http(422, "Key already exists"));
  }

  /** The payload fields `_update` assigns: not the primary key, and only
      names the row has. */
  function Assignable(t: Table, payload: seq<(string, Value)>): (r: seq<(string, Value)>)
    ensures forall i :: 0 <= i < |r| ==> r[i] in payload && r[i].0 != PrimaryKey && r[i].0 in t.columns
    ensures forall i :: 0 <= i < |payload| && payload[i].0 != PrimaryKey && payload[i].0 in t.columns ==> payload[i] in r
  {
    if payload == [] then []
    else
      var rest := Assignable(t, payload[..|payload| - 1]);
      var last := payload[|payload| - 1];
      assert forall i :: 0 <= i < |payload| - 1 ==> payload[..|payload| - 1][i] == payload[i];
      if last.0 != PrimaryKey && last.0 in t.columns then rest + [last] else rest
  }

  /** `PUT /{item_id}`: NOT_FOUND for a missing row; otherwise the
      assignable fields are copied onto the row and nothing else changes.
      An update that leaves NULL in a NOT NULL column is rolled back and
      answered with a 422. */
  method Update(t: Table, itemId: int, payload: seq<(string, Value)>) returns (r: Result<Record, RouteError>)
    requires t.Valid()
    modifies t`rows
    ensures t.Valid()
    ensures itemId !in old(t.rows) ==> r == Err(NotFound) && t.rows == old(t.rows)
    ensures r.Ok? ==> (itemId in old(t.rows) &&
      r.value == Record(itemId, Patch(old(t.rows)[itemId], Assignable(t, payload))) &&
      t.rows == old(t.rows)[itemId := r.value.fields])
    ensures r.Err? ==> t.rows == old(t.rows) && (r.error == NotFound || r.error == Unprocessable)
    ensures itemId in old(t.rows) ==> (r.Ok? <==> t.RowOk(Patch(old(t.rows)[itemId], Assignable(t, payload))))
  {
    if itemId !in t.rows {
      return Err(NotFound);
    }
    var res := t.Update(itemId, Assignable(t, payload));
    match res
    case Ok(rec) => r := Ok(rec);
    case Err(_) => r := Err(Unprocessable);
  }

  /** The fields `_update` leaves alone keep their values: the key, every
      name the payload does not assign, and every name that is not a
      column. */
  lemma UpdateFrame(t: Table, row: Row, payload: seq<(string, Value)>, c: string)
    requires c in row
    requires forall i :: 0 <= i < |payload| && payload[i].0 != PrimaryKey && payload[i].0 in t.columns ==> payload[i].0 != c
    ensures c in Patch(row, Assignable(t, payload)) && Patch(row, Assignable(t, payload))[c] == row[c]
  {
    var a := Assignable(t, payload);
    PatchEffect(row, a);
    NotAssigned(a, c);
  }

  lemma {:induction false} NotAssigned(payload: seq<(string, Value)>, c: string)
    requires forall i :: 0 <= i < |payload| ==> payload[i].0 != c
    ensures LastAssigned(payload, c) == None
    decreases |payload|
  {
    if payload != [] {
      NotAssigned(payload[..|payload| - 1], c);
    }
  }

  /** `DELETE /{item_id}`: NOT_FOUND for a missing row; otherwise the row is
      removed and returned. */
  method DeleteOne(t: Table, itemId: int) returns (r: Result<Record, RouteError>)
    requires t.Valid()
    modifies t`rows
    ensures t.Valid()
    ensures r.Ok? <==> itemId in old(t.rows)
    ensures r.Ok? ==> r.value == Record(itemId, old(t.rows)[itemId]) && t.rows == old(t.rows) - {itemId}
    ensures r.Err? ==> r.error == NotFound && t.rows == old(t.rows)
  {
    if itemId !in t.rows {
      return Err(NotFound);
    }
    var res := t.Delete(itemId);
    r := Ok(res.value);
  }

}
