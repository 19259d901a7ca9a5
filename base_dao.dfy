/** `BaseDAO` (app/base/dao.py): generic reads and writes over one table.
    A table is a map from the integer primary key `id` to a row, a row maps
    every other column name to its value, and the key sequence hands out
    the keys the database generates. The NOT NULL columns are the only
    constraint besides the unique key. */
module BaseDao {
  import opened Wrappers
  import opened Values
  import opened RowOrder

  type Row = map<string, Value>

  /** The name of the primary key column. */
  const PrimaryKey: string := "id"

  /** One row together with its key, as the DAO methods return it. */
  datatype Record = Record(id: int, fields: Row)

  /** The keys of a list of records, in list order. */
  function Ids(r: seq<Record>): (ids: seq<int>)
    ensures |ids| == |r| && forall i :: 0 <= i < |r| ==> ids[i] == r[i].id
  {
    seq(|r|, i requires 0 <= i < |r| => r[i].id)
  }

  /** `IOrderEnum`. */
  datatype Order = Ascendent | Descendent

  /** Why the database refuses an INSERT. */
  datatype InsertFailure =
    | UnknownColumn(name: string)      // the mapped class has no such attribute
    | NotNullViolation(column: string)
    | DuplicateKey

  /** What a DAO call raises. */
  datatype DaoError =
    | HttpError(status: int, detail: string)
    | IntegrityError
    | NoResultFound
    | TypeError

  /** The value an assignment list gives to `name` last, if any. */
  function LastAssigned(payload: seq<(string, Value)>, name: string): Option<Value> {
    if payload == [] then None
    else if payload[|payload| - 1].0 == name then Some(payload[|payload| - 1].1)
    else LastAssigned(payload[..|payload| - 1], name)
  }

  /** `setattr(row, name, value)` as far as the table sees it: a column is
      overwritten; any other name only sets a Python attribute that is
      never written back. */
  function SetField(row: Row, field: (string, Value)): Row {
    if field.0 in row then row[field.0 := field.1] else row
  }

  /** The row after the assignments in payload, made one after the other. */
  function Patch(row: Row, payload: seq<(string, Value)>): Row {
    if payload == [] then row
    else SetField(Patch(row, payload[..|payload| - 1]), payload[|payload| - 1])
  }

  /** A partial update changes exactly the columns it names: each gets the
      last value assigned to it, every other column keeps its value, and no
      column is added. */
  lemma {:induction false} PatchEffect(row: Row, payload: seq<(string, Value)>)
    ensures Patch(row, payload).Keys == row.Keys
    ensures forall c :: c in row ==>
      Patch(row, payload)[c] == match LastAssigned(payload, c) case Some(v) => v case None => row[c]
    decreases |payload|
  {
    if payload != [] {
      PatchEffect(row, payload[..|payload| - 1]);
    }
  }

  /** The row an INSERT stores: every column, NULL where nothing was given
      (column defaults are not modelled). */
  function Complete(columns: set<string>, fields: Row): (r: Row)
    ensures r.Keys == columns
    ensures forall c :: c in columns ==> r[c] == if c in fields then fields[c] else Null
  {
    map c | c in columns :: if c in fields then fields[c] else Null
  }

  class Table {
    const columns: set<string>
    const notNull: set<string>
    var rows: map<int, Row>
    var nextId: int

    /** A row has exactly the table's columns, and no NULL in a NOT NULL
        column. */
    predicate RowOk(r: Row) {
      r.Keys == columns && forall c :: c in notNull ==> c in r && r[c] != Null
    }

    ghost predicate Valid()
      reads this
    {
      PrimaryKey !in columns && notNull <= columns &&
      forall k :: k in rows ==> RowOk(rows[k])
    }

    constructor(columns: set<string>, notNull: set<string>)
      requires PrimaryKey !in columns && notNull <= columns
      ensures Valid() && rows == map[]
      ensures this.columns == columns && this.notNull == notNull
    {
      this.columns := columns;
      this.notNull := notNull;
      rows := map[];
      nextId := 1;
    }

    /** The column `name` of every row; the key column is the key itself. */
    function Column(name: string): (col: map<int, Value>)
      reads this
      ensures col.Keys == rows.Keys
    {
      map k | k in rows :: if name == PrimaryKey then IntVal(k) else if name in rows[k] then rows[k][name] else Null
    }

    function Records(keys: seq<int>): (r: seq<Record>)
      reads this
      requires forall i :: 0 <= i < |keys| ==> keys[i] in rows
      ensures |r| == |keys|
      ensures forall i :: 0 <= i < |r| ==> r[i] == Record(keys[i], rows[keys[i]])
    {
      seq(|keys|, i requires 0 <= i < |keys| && keys[i] in rows reads this => Record(keys[i], rows[keys[i]]))
    }

    /** `get_one_or_none`: the row with that key, if there is one. */
    function GetOneOrNone(id: int): (r: Option<Row>)
      reads this
      ensures r.Some? <==> id in rows
      ensures r.Some? ==> r.value == rows[id]
    {
      if id in rows then Some(rows[id]) else None
    }

    /** `get_by_ids`: exactly the rows whose key is listed; listed keys
        with no row are skipped. */
    function GetByIds(ids: seq<int>): (r: map<int, Row>)
      reads this
      ensures forall k :: k in r <==> k in rows && k in ids
      ensures forall k :: k in r ==> r[k] == rows[k]
    {
      map k | k in rows && k in ids :: rows[k]
    }

    /** `get_count`: the number of rows. */
    function GetCount(): (n: nat)
      reads this
      ensures n == |rows.Keys|
    {
      |rows|
    }

    /** The keys of the rows in key order, `skip` of them skipped, at most
        `limit` kept (all of them when None). */
    function KeyPage(skip: nat, limit: Option<nat>): (keys: seq<int>)
      reads this
      ensures |keys| == if skip >= |rows| then 0 else if limit.Some? && limit.value < |rows| - skip then limit.value else |rows| - skip
      ensures forall i :: 0 <= i < |keys| ==> keys[i] in rows
      ensures forall i, j :: 0 <= i < j < |keys| ==> keys[i] < keys[j]
      ensures forall i :: 0 <= i < |keys| ==> skip + i < |rows| && keys[i] == Ascending(Column(PrimaryKey), rows.Keys)[skip + i]
    {
      var col := Column(PrimaryKey);
      var keys := Page(Ascending(col, rows.Keys), skip, limit);
      PageIncreasing(col, Ascending(col, rows.Keys), skip, limit);
      KeysIncreasing(keys);
      keys
    }

    /** Ordering by the key column is ordering by the key. */
    lemma KeysIncreasing(keys: seq<int>)
      requires Increasing(Column(PrimaryKey), keys)
      ensures forall i, j :: 0 <= i < j < |keys| ==> keys[i] < keys[j]
    {
      var col := Column(PrimaryKey);
      forall i, j | 0 <= i < j < |keys| ensures keys[i] < keys[j] {
        assert Before(col, keys[i], keys[j]);
        assert col[keys[i]] == IntVal(keys[i]) && col[keys[j]] == IntVal(keys[j]);
      }
    }

    /** `get_multi` with the default query: rows by key, `skip` of them
        skipped, at most `limit` returned. */
    function GetMulti(skip: nat, limit: nat): (r: seq<Record>)
      reads this
      ensures |r| == if skip >= |rows| then 0 else if limit < |rows| - skip then limit else |rows| - skip
      ensures forall i :: 0 <= i < |r| ==> r[i].id in rows && r[i].fields == rows[r[i].id]
      ensures forall i, j :: 0 <= i < j < |r| ==> r[i].id < r[j].id
    {
      Records(KeyPage(skip, Some(limit)))
    }

    /** No limit keeps every row after the first `skip`, as a limit of the
        row count does. */
    lemma KeyPageNoLimit(skip: nat)
      ensures KeyPage(skip, None) == KeyPage(skip, Some(|rows|))
    {
      var a, b := KeyPage(skip, None), KeyPage(skip, Some(|rows|));
      var d := Ascending(Column(PrimaryKey), rows.Keys);
      assert |a| == |b|;
      forall i | 0 <= i < |a| ensures a[i] == b[i] {
        assert a[i] == d[skip + i] && b[i] == d[skip + i];
      }
    }

    /** Key i of a page is preceded by exactly skip + i rows of the table:
        the page is the slice of the table in key order that starts after
        the first `skip` rows. */
    lemma KeyPageIsSlice(skip: nat, limit: Option<nat>, i: nat)
      requires i < |KeyPage(skip, limit)|
      ensures |set k | k in rows && k < KeyPage(skip, limit)[i]| == skip + i
    {
      var col := Column(PrimaryKey);
      var d := Ascending(col, rows.Keys);
      var x := KeyPage(skip, limit)[i];
      assert x == d[skip + i];
      AscendingRank(col, rows.Keys, skip + i);
      KeysBelow(x);
    }

    lemma KeysBelow(x: int)
      requires x in rows
      ensures (set k | k in rows && k < x) == (set k | k in rows.Keys && Before(Column(PrimaryKey), k, x))
    {
      var col := Column(PrimaryKey);
      forall k | k in rows ensures k < x <==> Before(col, k, x) {
        assert col[k] == IntVal(k) && col[x] == IntVal(x);
      }
    }

    /** Row r.id of `get_multi` is preceded by exactly skip + i rows of the
        table. */
    lemma GetMultiIsSlice(skip: nat, limit: nat, i: nat)
      requires i < |GetMulti(skip, limit)|
      ensures |set k | k in rows && k < GetMulti(skip, limit)[i].id| == skip + i
    {
      KeyPageIsSlice(skip, Some(limit), i);
    }

    /** The column `get_multi_ordered` sorts by: `order_by` when it names a
        column, else the key. */
    function OrderColumn(orderBy: Option<string>): (name: string)
      ensures name == PrimaryKey || name in columns
      ensures orderBy.Some? && (orderBy.value in columns || orderBy.value == PrimaryKey) ==> name == orderBy.value
      ensures orderBy.None? || (orderBy.value !in columns && orderBy.value != PrimaryKey) ==> name == PrimaryKey
    {
      if orderBy.None? || (orderBy.value !in columns && orderBy.value != PrimaryKey) then PrimaryKey
      else orderBy.value
    }

    /** The table's keys in the order of `ORDER BY name ASC` (or DESC for
        anything but `ascendent`). */
    function OrderedKeys(name: string, order: Option<Order>): (r: seq<int>)
      reads this
      ensures |r| == |rows.Keys|
      ensures forall k :: k in r <==> k in rows
    {
      if order == Some(Ascendent) then Ascending(Column(name), rows.Keys)
      else Descending(Column(name), rows.Keys)
    }

    /** The keys of one `get_multi_ordered` page: the ordered keys from
        position `skip` on, at most `limit` of them. */
    function OrderedPage(skip: nat, limit: nat, orderBy: Option<string>, order: Option<Order>): (keys: seq<int>)
      reads this
      ensures |keys| == if skip >= |rows| then 0 else if limit < |rows| - skip then limit else |rows| - skip
      ensures forall i :: 0 <= i < |keys| ==> keys[i] in rows
      ensures order == Some(Ascendent) ==> Increasing(Column(OrderColumn(orderBy)), keys)
      ensures order != Some(Ascendent) ==> Decreasing(Column(OrderColumn(orderBy)), keys)
      ensures forall i :: 0 <= i < |keys| ==> skip + i < |rows| && keys[i] == OrderedKeys(OrderColumn(orderBy), order)[skip + i]
    {
      var name := OrderColumn(orderBy);
      var ks := OrderedKeys(name, order);
      assert |ks| == |rows|;
      if order == Some(Ascendent) then
        PageIncreasing(Column(name), ks, skip, Some(limit));
        Page(ks, skip, Some(limit))
      else
        PageDecreasing(Column(name), ks, skip, Some(limit));
        Page(ks, skip, Some(limit))
    }

    /** `get_multi_ordered`: rows sorted by the order column, ascending
        only for `ascendent`; then `skip` and `limit`. */
    function GetMultiOrdered(skip: nat, limit: nat, orderBy: Option<string>, order: Option<Order>): (r: seq<Record>)
      reads this
      ensures |r| == if skip >= |rows| then 0 else if limit < |rows| - skip then limit else |rows| - skip
      ensures forall i :: 0 <= i < |r| ==> r[i].id in rows && r[i].fields == rows[r[i].id]
      ensures Ids(r) == OrderedPage(skip, limit, orderBy, order)
    {
      var keys := OrderedPage(skip, limit, orderBy, order);
      var r := Records(keys);
      assert Ids(r) == keys;
      r
    }

    /** An `order_by` that names no column sorts exactly as `id` does. */
    lemma OrderedFallback(skip: nat, limit: nat, orderBy: Option<string>, order: Option<Order>)
      requires orderBy.None? || (orderBy.value !in columns && orderBy.value != PrimaryKey)
      ensures GetMultiOrdered(skip, limit, orderBy, order) == GetMultiOrdered(skip, limit, Some(PrimaryKey), order)
    {
    }

    lemma RecordsReverse(keys: seq<int>)
      requires forall i :: 0 <= i < |keys| ==> keys[i] in rows
      ensures Records(Reverse(keys)) == Reverse(Records(keys))
    {
    }

    /** Over the whole table, descending order lists the rows of ascending
        order back to front. */
    lemma OrderedReverse(orderBy: Option<string>)
      ensures GetMultiOrdered(0, |rows|, orderBy, Some(Descendent)) ==
              Reverse(GetMultiOrdered(0, |rows|, orderBy, Some(Ascendent)))
    {
      var name := OrderColumn(orderBy);
      DescendingIsReverse(Column(name), rows.Keys);
      var a := OrderedKeys(name, Some(Ascendent));
      var d := OrderedKeys(name, Some(Descendent));
      assert d == Reverse(a);
      assert |rows.Keys| == |rows|;
      assert Page(a, 0, Some(|rows|)) == a;
      assert Page(d, 0, Some(|rows|)) == d;
      RecordsReverse(a);
    }

    /** `INSERT`: the constructor rejects a name that is not a column; the
        key is the given one, or the next value of the key sequence (which
        is drawn even if the row is then refused); a NOT NULL column left
        empty or NULL and a key already taken are refused. */
    method Insert(key: Option<int>, fields: Row) returns (r: Result<int, InsertFailure>)
      requires Valid()
      modifies this
      ensures Valid()
      ensures nextId == if key.None? && fields.Keys <= columns then old(nextId) + 1 else old(nextId)
      ensures (exists c :: c in fields && c !in columns) ==> r.Err? && r.error.UnknownColumn?
      ensures r.Err? && r.error.UnknownColumn? ==> r.error.name in fields && r.error.name !in columns
      ensures r.Err? && r.error.NotNullViolation? ==> (r.error.column in notNull &&
        (r.error.column !in fields || fields[r.error.column] == Null))
      ensures r.Ok? <==> (fields.Keys <= columns &&
        (forall c :: c in notNull ==> c in fields && fields[c] != Null) &&
        (if key.Some? then key.value else old(nextId)) !in old(rows))
      ensures r.Ok? ==> (r.value == (if key.Some? then key.value else old(nextId)) &&
        rows == old(rows)[r.value := Complete(columns, fields)])
      ensures r.Err? ==> rows == old(rows)
    {
      if !(fields.Keys <= columns) {
        var c :| c in fields && c !in columns;
        return Err(UnknownColumn(c));
      }
      var id: int;
      if key.Some? {
        id := key.value;
      } else {
        id := nextId;
        nextId := nextId + 1;
      }
      if !(forall c :: c in notNull ==> c in fields && fields[c] != Null) {
        var c :| c in notNull && (c !in fields || fields[c] == Null);
        return Err(NotNullViolation(c));
      }
      if id in rows {
        return Err(DuplicateKey);
      }
      rows := rows[id := Complete(columns, fields)];
      r := Ok(id);
    }

    /** `create`: a refused INSERT answers 409 and leaves the table as it
        was; otherwise the new row is returned. */
    method Create(key: Option<int>, fields: Row) returns (r: Result<Record, DaoError>)
      requires Valid()
      modifies this
      ensures Valid()
      ensures nextId == if key.None? && fields.Keys <= columns then old(nextId) + 1 else old(nextId)
      ensures (exists c :: c in fields && c !in columns) ==> r == Err(TypeError)
      ensures r.Err? ==> rows == old(rows)
      ensures r.Err? && fields.Keys <= columns ==> r.error == HttpError(409, "Resource already exists")
      ensures r.Ok? <==> (fields.Keys <= columns &&
        (forall c :: c in notNull ==> c in fields && fields[c] != Null) &&
        (if key.Some? then key.value else old(nextId)) !in old(rows))
      ensures r.Ok? ==> (r.value.id !in old(rows) && rows == old(rows)[r.value.id := r.value.fields] &&
        r.value.fields == Complete(columns, fields))
    {
      var ins := Insert(key, fields);
      match ins
      case Ok(id) => r := Ok(Record(id, rows[id]));
      case Err(UnknownColumn(_)) => r := Err(TypeError);
      case Err(_) => r := Err(HttpError(409, "Resource already exists"));
    }

    /** The `setattr` loop of an update: each assignment in turn. */
    method ApplyFields(id: int, payload: seq<(string, Value)>)
      requires id in rows
      modifies this`rows
      ensures rows == old(rows)[id := Patch(old(rows)[id], payload)]
    {
      var i := 0;
      while i < |payload|
        invariant 0 <= i <= |payload|
        invariant rows == old(rows)[id := Patch(old(rows)[id], payload[..i])]
      {
        assert payload[..i + 1][..i] == payload[..i];
        rows := rows[id := SetField(rows[id], payload[i])];
        i := i + 1;
      }
      assert payload[..i] == payload;
    }

    /** `update`: assigns the payload's fields to the row; a NULL left in a
        NOT NULL column makes the commit fail and nothing changes. The key
        itself is not reassigned. */
    method Update(id: int, payload: seq<(string, Value)>) returns (r: Result<Record, DaoError>)
      requires Valid() && id in rows
      requires forall i :: 0 <= i < |payload| ==> payload[i].0 != PrimaryKey
      modifies this`rows
      ensures Valid()
      ensures r.Ok? <==> RowOk(Patch(old(rows)[id], payload))
      ensures r.Ok? ==> r.value == Record(id, Patch(old(rows)[id], payload)) && rows == old(rows)[id := r.value.fields]
      ensures r.Err? ==> r.error == IntegrityError && rows == old(rows)
    {
      var saved := rows;
      ApplyFields(id, payload);
      if !RowOk(rows[id]) {
        rows := saved;
        return Err(IntegrityError);
      }
      r := Ok(Record(id, rows[id]));
    }

    /** `delete`: removes the row with that key and returns it; with no
        such row `scalar_one` raises and nothing changes. */
    method Delete(id: int) returns (r: Result<Record, DaoError>)
      requires Valid()
      modifies this`rows
      ensures Valid()
      ensures r.Ok? <==> id in old(rows)
      ensures r.Ok? ==> r.value == Record(id, old(rows)[id]) && rows == old(rows) - {id}
      ensures r.Err? ==> r.error == NoResultFound && rows == old(rows)
    {
      if id !in rows {
        return Err(NoResultFound);
      }
      r := Ok(Record(id, rows[id]));
      rows := rows - {id};
    }

    /** `delete_all`: the table is left empty. */
    method DeleteAll()
      requires Valid()
      modifies this`rows
      ensures Valid() && rows == map[]
    {
      rows := map[];
    }

    /** `add`: inserts one row and answers its key, or answers None on any
        failure with the table unchanged. */
    method Add(key: Option<int>, fields: Row) returns (r: Option<int>)
      requires Valid()
      modifies this
      ensures Valid()
      ensures nextId == if key.None? && fields.Keys <= columns then old(nextId) + 1 else old(nextId)
      ensures r.Some? <==> (fields.Keys <= columns &&
        (forall c :: c in notNull ==> c in fields && fields[c] != Null) &&
        (if key.Some? then key.value else old(nextId)) !in old(rows))
      ensures r.Some? ==> r.value !in old(rows) && rows == old(rows)[r.value := Complete(columns, fields)]
      ensures r.None? ==> rows == old(rows)
    {
      var ins := Insert(key, fields);
      r := if ins.Ok? then Some(ins.value) else None;
    }
  }
}
