/**
 * The server's row store and its batch endpoint (server/db/database.js).
 * The SQLite `rows` table is a map from the row id to the table id and
 * the row data it was stored with; `createRow`, `updateRow` and `deleteRow`
 * are the store's operations, and `batchUpdateRows` runs a list of
 * create, update and delete operations against it in order, collecting
 * successes and errors without stopping at the first error.
 *
 * Fresh uuids and SQLite's binding of an id value to the INSERT are
 * parameters; the transaction, the schema and the connection are not
 * modelled.
 */
module Database {

  import opened Seqs
  import opened Types
  import opened Coerce

  /** One row of the `rows` table: the table it was created under and its data. */
  datatype StoredRow = StoredRow(tableId: string, data: Row)

  type Rows = map<string, StoredRow>

  /**
   * What binding an id value to the INSERT statement gives: the text the
   * primary key column stores, or the message of the error `run` throws
   * for a value SQLite cannot bind.
   */
  datatype Bound = Key(text: string) | BindFailure(message: string)

  type Binder = Value -> Bound

  /** A string id is stored as that string. */
  ghost predicate BindsText(bind: Binder)
  {
    forall s :: bind(Str(s)) == Key(s)
  }

  /** The error SQLite raises for an id the table already holds. */
  const DuplicateKey: string := "UNIQUE constraint failed: rows.id"

  /** The error SQLite raises when the row's table id names no stored table (foreign keys are enforced). */
  const ForeignKeyFailed: string := "FOREIGN KEY constraint failed"

  const UnknownType: string := "Unknown operation type"

  /**
   * One entry of the batch request. `rowId` is "" when it is absent (both
   * are falsy); `rowIds` is None unless it is an array.
   */
  datatype Operation = Operation(kind: string, rowId: string, rowIds: Option<seq<string>>, rowData: Option<Row>)

  /** `{ operation, id, success: true }`. */
  datatype Success = Success(operation: string, id: Value)

  /** `{ operation, error }`. */
  datatype Failure = Failure(operation: string, error: string)

  /** The store together with the two lists the batch accumulates. */
  datatype Outcome = Outcome(rows: Rows, results: seq<Success>, errors: seq<Failure>)

  // ------------------------------------------------------ store operations

  /** The result of an INSERT: the store afterwards and the error it threw, if any. */
  datatype Insertion = Insertion(rows: Rows, error: Option<string>)

  /**
   * createRow: the row is inserted under the key its id binds to; an id
   * that cannot be bound, an id the store already holds, or a table id
   * that names no stored table throws, in that order of checking, and
   * leaves the store as it was.
   */
  function InsertRow(rows: Rows, tableIds: set<string>, tableId: string, data: Row, bind: Binder): (r: Insertion)
    requires "id" in data
    ensures r.error.None? <==> bind(data["id"]).Key? && bind(data["id"]).text !in rows && tableId in tableIds
    ensures r.error.Some? ==> r.rows == rows
    ensures r.error.None? ==> r.rows == rows[bind(data["id"]).text := StoredRow(tableId, data)]
    ensures bind(data["id"]).Key? && bind(data["id"]).text in rows ==> r.error == Some(DuplicateKey)
    ensures bind(data["id"]).Key? && bind(data["id"]).text !in rows && tableId !in tableIds ==> r.error == Some(ForeignKeyFailed)
    ensures bind(data["id"]).BindFailure? ==> r.error == Some(bind(data["id"]).message)
  {
    match bind(data["id"])
    case BindFailure(m) => Insertion(rows, Some(m))
    case Key(k) =>
      if k in rows then Insertion(rows, Some(DuplicateKey))
      else if tableId !in tableIds then Insertion(rows, Some(ForeignKeyFailed))
      else Insertion(rows[k := StoredRow(tableId, data)], None)
  }

  /**
   * updateRow: the data of the row with that id is replaced wholesale and
   * its table is kept; an id the store does not hold matches nothing.
   */
  function UpdateData(rows: Rows, rowId: string, data: Row): (r: Rows)
    ensures r.Keys == rows.Keys
    ensures forall k :: k in rows && k != rowId ==> r[k] == rows[k]
    ensures rowId in rows ==> r[rowId] == StoredRow(rows[rowId].tableId, data)
  {
    if rowId in rows then rows[rowId := StoredRow(rows[rowId].tableId, data)] else rows
  }

  /** deleteRow for each id in turn: exactly those ids go, every other row stays. */
  function RemoveAll(rows: Rows, ids: seq<string>): (r: Rows)
    ensures forall k :: k in r <==> k in rows && k !in ids
    ensures forall k :: k in r ==> r[k] == rows[k]
    decreases |ids|
  {
    if ids == [] then rows
    else RemoveAll(rows, ids[..|ids| - 1]) - {ids[|ids| - 1]}
  }

  /** The results a delete by `rowIds` pushes: one success per id, in order, whether or not the id was stored. */
  function DeleteResults(ids: seq<string>): (r: seq<Success>)
    ensures |r| == |ids|
    ensures forall i :: 0 <= i < |ids| ==> r[i] == Success("delete", Str(ids[i]))
  {
    seq(|ids|, i requires 0 <= i < |ids| => Success("delete", Str(ids[i])))
  }

  // -------------------------------------------------------- the batch spec

  /** `operation.rowData.id || uuidv4()`: the row data's own id when it is truthy, else the fresh uuid. */
  function CreateId(rowData: Row, freshId: string): (id: Value)
    ensures Truthy(CellAt(rowData, "id")) ==> id == rowData["id"]
    ensures !Truthy(CellAt(rowData, "id")) ==> id == Str(freshId)
    ensures Truthy(Some(id)) || id == Str("")
  {
    if Truthy(CellAt(rowData, "id")) then rowData["id"] else Str(freshId)
  }

  /** An operation that lacks the fields its type needs and is passed over without a trace. */
  predicate Skipped(op: Operation)
  {
    || (op.kind == "create" && op.rowData.None?)
    || (op.kind == "update" && (op.rowId == "" || op.rowData.None?))
    || (op.kind == "delete" && op.rowId == "" && op.rowIds.None?)
  }

  /** How many entries (results plus errors) one operation adds. */
  function Entries(op: Operation): nat
  {
    if Skipped(op) then 0
    else if op.kind == "delete" && op.rowId == "" then |op.rowIds.value|
    else 1
  }

  /** The entries a whole list of operations adds. */
  function EntryCount(ops: seq<Operation>): nat
  {
    if ops == [] then 0 else EntryCount(ops[..|ops| - 1]) + Entries(ops[|ops| - 1])
  }

  /**
   * One pass of the loop body. Every case only appends to the two lists;
   * an operation's error is recorded and the batch goes on.
   */
  function Apply(o: Outcome, tableIds: set<string>, tableId: string, op: Operation, freshId: string, bind: Binder): (r: Outcome)
    ensures o.results <= r.results && o.errors <= r.errors
    ensures |r.results| + |r.errors| == |o.results| + |o.errors| + Entries(op)
    ensures Skipped(op) ==> r == o
  {
    if op.kind == "create" then
      if op.rowData.None? then o
      else
        var id := CreateId(op.rowData.value, freshId);
        var w := InsertRow(o.rows, tableIds, tableId, op.rowData.value["id" := id], bind);
        if w.error.None? then Outcome(w.rows, o.results + [Success("create", id)], o.errors)
        else Outcome(o.rows, o.results, o.errors + [Failure("create", w.error.value)])
    else if op.kind == "update" then
      if op.rowId == "" || op.rowData.None? then o
      else Outcome(UpdateData(o.rows, op.rowId, op.rowData.value), o.results + [Success("update", Str(op.rowId))], o.errors)
    else if op.kind == "delete" then
      if op.rowId != "" then Outcome(o.rows - {op.rowId}, o.results + [Success("delete", Str(op.rowId))], o.errors)
      else if op.rowIds.Some? then
        Outcome(RemoveAll(o.rows, op.rowIds.value), o.results + DeleteResults(op.rowIds.value), o.errors)
      else o
    else Outcome(o.rows, o.results, o.errors + [Failure(op.kind, UnknownType)])
  }

  /**
   * What one operation does, case by case: an unknown type records an
   * error and keeps the store; a create inserts, or records the INSERT's
   * error and keeps the store; an update rewrites the row's data; a delete
   * removes the id, or each listed id, with one success each.
   */
  lemma ApplyCases(o: Outcome, tableIds: set<string>, tableId: string, op: Operation, freshId: string, bind: Binder)
    ensures op.kind !in {"create", "update", "delete"} ==>
      Apply(o, tableIds, tableId, op, freshId, bind) == Outcome(o.rows, o.results, o.errors + [Failure(op.kind, UnknownType)])
    ensures op.kind == "create" && op.rowData.Some? ==>
      var id := CreateId(op.rowData.value, freshId);
      var r := Apply(o, tableIds, tableId, op, freshId, bind);
      match bind(id)
      case Key(k) =>
        if k in o.rows then r == Outcome(o.rows, o.results, o.errors + [Failure("create", DuplicateKey)])
        else if tableId !in tableIds then r == Outcome(o.rows, o.results, o.errors + [Failure("create", ForeignKeyFailed)])
        else r == Outcome(o.rows[k := StoredRow(tableId, op.rowData.value["id" := id])], o.results + [Success("create", id)], o.errors)
      case BindFailure(m) => r == Outcome(o.rows, o.results, o.errors + [Failure("create", m)])
    ensures op.kind == "update" && op.rowId != "" && op.rowData.Some? ==>
      Apply(o, tableIds, tableId, op, freshId, bind)
        == Outcome(UpdateData(o.rows, op.rowId, op.rowData.value), o.results + [Success("update", Str(op.rowId))], o.errors)
    ensures op.kind == "delete" && op.rowId != "" ==>
      Apply(o, tableIds, tableId, op, freshId, bind) == Outcome(o.rows - {op.rowId}, o.results + [Success("delete", Str(op.rowId))], o.errors)
    ensures op.kind == "delete" && op.rowId == "" && op.rowIds.Some? ==>
      Apply(o, tableIds, tableId, op, freshId, bind)
        == Outcome(RemoveAll(o.rows, op.rowIds.value), o.results + DeleteResults(op.rowIds.value), o.errors)
  {
  }

  /**
   * The batch: the operations applied in input order, `uuids[i]` being the
   * uuid operation i would draw. The lists only grow, by exactly the
   * entries the operations add.
   */
  function Batch(o: Outcome, tableIds: set<string>, tableId: string, ops: seq<Operation>, uuids: seq<string>, bind: Binder): (r: Outcome)
    requires |uuids| == |ops|
    ensures o.results <= r.results && o.errors <= r.errors
    ensures |r.results| + |r.errors| == |o.results| + |o.errors| + EntryCount(ops)
    decreases |ops|
  {
    if ops == [] then o
    else
      var n := |ops| - 1;
      Apply(Batch(o, tableIds, tableId, ops[..n], uuids[..n], bind), tableIds, tableId, ops[n], uuids[n], bind)
  }

  // ---------------------------------------------------- batch properties

  /** A non-empty batch is its last operation applied to the batch of the others. */
  lemma BatchStep(o: Outcome, tableIds: set<string>, tableId: string, ops: seq<Operation>, uuids: seq<string>, bind: Binder)
    requires |uuids| == |ops| > 0
    ensures Batch(o, tableIds, tableId, ops, uuids, bind)
         == Apply(Batch(o, tableIds, tableId, ops[..|ops| - 1], uuids[..|ops| - 1], bind), tableIds, tableId, ops[|ops| - 1], uuids[|ops| - 1], bind)
  {
  }

  /** A batch split in two is the second half run on the outcome of the first. */
  lemma {:induction false} BatchAppend(o: Outcome, tableIds: set<string>, tableId: string, ops: seq<Operation>, more: seq<Operation>,
                                      uuids: seq<string>, moreUuids: seq<string>, bind: Binder)
    requires |uuids| == |ops| && |moreUuids| == |more|
    ensures Batch(o, tableIds, tableId, ops + more, uuids + moreUuids, bind)
         == Batch(Batch(o, tableIds, tableId, ops, uuids, bind), tableIds, tableId, more, moreUuids, bind)
    decreases |more|
  {
    if more == [] {
      assert ops + more == ops;
      assert uuids + moreUuids == uuids;
    } else {
      var n := |more| - 1;
      var all, allUuids := ops + more, uuids + moreUuids;
      assert all[..|all| - 1] == ops + more[..n];
      assert allUuids[..|all| - 1] == uuids + moreUuids[..n];
      assert all[|all| - 1] == more[n] && allUuids[|all| - 1] == moreUuids[n];
      BatchStep(o, tableIds, tableId, all, allUuids, bind);
      BatchStep(Batch(o, tableIds, tableId, ops, uuids, bind), tableIds, tableId, more, moreUuids, bind);
      BatchAppend(o, tableIds, tableId, ops, more[..n], uuids, moreUuids[..n], bind);
    }
  }

  /**
   * The only errors a batch records: a create whose id is already stored or
   * cannot be bound, or whose table is not stored, and an operation of
   * unknown type. Updates and deletes never fail.
   */
  ghost predicate Explained(f: Failure, bind: Binder)
  {
    || (f.operation == "create" && (f.error in {DuplicateKey, ForeignKeyFailed} || exists v :: bind(v) == BindFailure(f.error)))
    || (f.operation !in {"create", "update", "delete"} && f.error == UnknownType)
  }

  lemma {:induction false} ErrorsExplained(o: Outcome, tableIds: set<string>, tableId: string, ops: seq<Operation>, uuids: seq<string>, bind: Binder)
    requires |uuids| == |ops|
    requires forall f :: f in o.errors ==> Explained(f, bind)
    ensures forall f :: f in Batch(o, tableIds, tableId, ops, uuids, bind).errors ==> Explained(f, bind)
    decreases |ops|
  {
    if ops != [] {
      var n := |ops| - 1;
      var m := Batch(o, tableIds, tableId, ops[..n], uuids[..n], bind);
      ErrorsExplained(o, tableIds, tableId, ops[..n], uuids[..n], bind);
      var op := ops[n];
      if op.kind == "create" && op.rowData.Some? {
        var id := CreateId(op.rowData.value, uuids[n]);
        if bind(id).BindFailure? {
          assert Explained(Failure("create", bind(id).message), bind);
        }
      }
    }
  }

  /** Under a table id that names no stored table every create fails, so a batch adds no row. */
  lemma {:induction false} UnknownTableAddsNoRow(o: Outcome, tableIds: set<string>, tableId: string, ops: seq<Operation>,
                                                uuids: seq<string>, bind: Binder)
    requires |uuids| == |ops| && tableId !in tableIds
    ensures Batch(o, tableIds, tableId, ops, uuids, bind).rows.Keys <= o.rows.Keys
    decreases |ops|
  {
    if ops != [] {
      var n := |ops| - 1;
      UnknownTableAddsNoRow(o, tableIds, tableId, ops[..n], uuids[..n], bind);
      ApplyCases(Batch(o, tableIds, tableId, ops[..n], uuids[..n], bind), tableIds, tableId, ops[n], uuids[n], bind);
    }
  }

  /** Whether an operation names the key `k`: as its create id, its update id, or one of its delete ids. */
  ghost predicate Touches(op: Operation, freshId: string, bind: Binder, k: string)
  {
    || (op.kind == "create" && op.rowData.Some? && bind(CreateId(op.rowData.value, freshId)) == Key(k))
    || (op.kind == "update" && op.rowId == k)
    || (op.kind == "delete" && (op.rowId == k || (op.rowId == "" && op.rowIds.Some? && k in op.rowIds.value)))
  }

  /** A row no operation names is there afterwards exactly when it was, with the same table and data. */
  lemma {:induction false} UntouchedRowsStay(o: Outcome, tableIds: set<string>, tableId: string, ops: seq<Operation>, uuids: seq<string>,
                                            bind: Binder, k: string)
    requires |uuids| == |ops|
    requires forall i :: 0 <= i < |ops| ==> !Touches(ops[i], uuids[i], bind, k)
    ensures var r := Batch(o, tableIds, tableId, ops, uuids, bind).rows;
      (k in r <==> k in o.rows) && (k in r ==> r[k] == o.rows[k])
    decreases |ops|
  {
    if ops != [] {
      var n := |ops| - 1;
      UntouchedRowsStay(o, tableIds, tableId, ops[..n], uuids[..n], bind, k);
      assert !Touches(ops[n], uuids[n], bind, k);
    }
  }

  /**
   * Updating ids the store does not hold changes no row and records no
   * error, yet reports one success per update, in order.
   */
  lemma {:induction false} UpdatesOfMissingRows(o: Outcome, tableIds: set<string>, tableId: string, ops: seq<Operation>, uuids: seq<string>, bind: Binder)
    requires |uuids| == |ops|
    requires forall i :: 0 <= i < |ops| ==>
      ops[i].kind == "update" && ops[i].rowId != "" && ops[i].rowData.Some? && ops[i].rowId !in o.rows
    ensures var r := Batch(o, tableIds, tableId, ops, uuids, bind);
      && r.rows == o.rows && r.errors == o.errors
      && |r.results| == |o.results| + |ops|
      && forall i :: 0 <= i < |ops| ==> r.results[|o.results| + i] == Success("update", Str(ops[i].rowId))
    decreases |ops|
  {
    if ops != [] {
      var n := |ops| - 1;
      UpdatesOfMissingRows(o, tableIds, tableId, ops[..n], uuids[..n], bind);
      var m := Batch(o, tableIds, tableId, ops[..n], uuids[..n], bind);
      assert forall i :: 0 <= i < n ==> ops[..n][i] == ops[i];
    }
  }

  /** A create under a key the store does not hold, followed by a delete of that key, gives back the store. */
  lemma CreateThenDeleteRestores(o: Outcome, tableIds: set<string>, tableId: string, rowData: Row, uuid: string, bind: Binder, k: string)
    requires tableId in tableIds
    requires bind(CreateId(rowData, uuid)) == Key(k) && k != "" && k !in o.rows
    ensures var r := Batch(o, tableIds, tableId, [Operation("create", "", None, Some(rowData)), Operation("delete", k, None, None)], [uuid, uuid], bind);
      r.rows == o.rows && r.errors == o.errors
      && r.results == o.results + [Success("create", CreateId(rowData, uuid)), Success("delete", Str(k))]
  {
    var create := Operation("create", "", None, Some(rowData));
    var delete := Operation("delete", k, None, None);
    var ops := [create, delete];
    assert ops[..1] == [create] && ops[..1][..0] == [];
    var a := Apply(o, tableIds, tableId, create, uuid, bind);
    assert Batch(o, tableIds, tableId, ops[..1], [uuid, uuid][..1], bind) == a;
    assert a.rows - {k} == o.rows;
  }

  /**
   * A create whose row data carries a non-empty string id the store does
   * not hold stores that data, unchanged, under that id and this table.
   */
  lemma CreateWithOwnId(o: Outcome, tableIds: set<string>, tableId: string, rowData: Row, uuid: string, bind: Binder)
    requires tableId in tableIds
    requires BindsText(bind)
    requires "id" in rowData && rowData["id"].Str? && rowData["id"].s != "" && rowData["id"].s !in o.rows
    ensures var r := Apply(o, tableIds, tableId, Operation("create", "", None, Some(rowData)), uuid, bind);
      && r.rows == o.rows[rowData["id"].s := StoredRow(tableId, rowData)]
      && r.results == o.results + [Success("create", rowData["id"])] && r.errors == o.errors
  {
    var id := CreateId(rowData, uuid);
    assert id == rowData["id"];
    assert bind(id) == Key(rowData["id"].s);
    assert rowData["id" := id] == rowData;
  }

  /**
   * A create whose row data has no truthy id stores it under the fresh
   * uuid, with that uuid written into its "id" key.
   */
  lemma CreateWithFreshId(o: Outcome, tableIds: set<string>, tableId: string, rowData: Row, uuid: string, bind: Binder)
    requires tableId in tableIds
    requires BindsText(bind)
    requires !Truthy(CellAt(rowData, "id")) && uuid !in o.rows
    ensures var r := Apply(o, tableIds, tableId, Operation("create", "", None, Some(rowData)), uuid, bind);
      && r.rows == o.rows[uuid := StoredRow(tableId, rowData["id" := Str(uuid)])]
      && r.results == o.results + [Success("create", Str(uuid))] && r.errors == o.errors
  {
    assert bind(Str(uuid)) == Key(uuid);
  }

  // ------------------------------------------------------------- the class

  /** The `rows` table behind the server. */
  class RowStore {

    var rows: Rows

    /** The ids in the `tables` table, which the rows' `table_id` must reference. */
    const tableIds: set<string>

    constructor(tableIds: set<string>)
      ensures rows == map[] && this.tableIds == tableIds
    {
      rows := map[];
      this.tableIds := tableIds;
    }

    /** createRow(tableId, rowData): inserts under the row data's id; returns the error it throws, if any. */
    method CreateRow(tableId: string, rowData: Row, bind: Binder) returns (error: Option<string>)
      requires "id" in rowData
      modifies this
      ensures Insertion(rows, error) == InsertRow(old(rows), tableIds, tableId, rowData, bind)
    {
      match bind(rowData["id"])
      case BindFailure(m) =>
        error := Some(m);
      case Key(k) =>
        if k in rows {
          error := Some(DuplicateKey);
        } else if tableId !in tableIds {
          error := Some(ForeignKeyFailed);
        } else {
          rows := rows[k := StoredRow(tableId, rowData)];
          error := None;
        }
    }

    /** updateRow(rowId, rowData): replaces the data of the row with that id, if there is one. */
    method UpdateRow(rowId: string, rowData: Row)
      modifies this
      ensures rows == UpdateData(old(rows), rowId, rowData)
    {
      if rowId in rows {
        rows := rows[rowId := StoredRow(rows[rowId].tableId, rowData)];
      }
    }

    /** deleteRow(rowId): removes the row with that id, if there is one. */
    method DeleteRow(rowId: string)
      modifies this
      ensures rows == old(rows) - {rowId}
    {
      rows := rows - {rowId};
    }

    /** The `rowIds` branch of a delete: deletes each id in turn and pushes one success per id. */
    method DeleteEach(ids: seq<string>, results: seq<Success>) returns (results': seq<Success>)
      modifies this
      ensures rows == RemoveAll(old(rows), ids)
      ensures results' == results + DeleteResults(ids)
    {
      results' := results;
      var j := 0;
      while j < |ids|
        invariant 0 <= j <= |ids|
        invariant rows == RemoveAll(old(rows), ids[..j])
        invariant results' == results + DeleteResults(ids[..j])
      {
        assert ids[..j + 1][..j] == ids[..j];
        DeleteRow(ids[j]);
        results' := results' + [Success("delete", Str(ids[j]))];
        j := j + 1;
      }
      assert ids[..j] == ids;
    }

    /** The body of the batch loop for one operation: the store and both lists move on as `Apply` says. */
    method Run(tableId: string, op: Operation, freshId: string, bind: Binder, results: seq<Success>, errors: seq<Failure>)
      returns (results': seq<Success>, errors': seq<Failure>)
      modifies this
      ensures Outcome(rows, results', errors') == Apply(Outcome(old(rows), results, errors), tableIds, tableId, op, freshId, bind)
    {
      results', errors' := results, errors;
      if op.kind == "create" {
        if op.rowData.Some? {
          var id := CreateId(op.rowData.value, freshId);
          var error := CreateRow(tableId, op.rowData.value["id" := id], bind);
          if error.None? {
            results' := results' + [Success("create", id)];
          } else {
            errors' := errors' + [Failure("create", error.value)];
          }
        }
      } else if op.kind == "update" {
        if op.rowId != "" && op.rowData.Some? {
          UpdateRow(op.rowId, op.rowData.value);
          results' := results' + [Success("update", Str(op.rowId))];
        }
      } else if op.kind == "delete" {
        if op.rowId != "" {
          DeleteRow(op.rowId);
          results' := results' + [Success("delete", Str(op.rowId))];
        } else if op.rowIds.Some? {
          results' := DeleteEach(op.rowIds.value, results');
        }
      } else {
        errors' := errors' + [Failure(op.kind, UnknownType)];
      }
    }

    /**
     * batchUpdateRows(tableId, operations): runs every operation in order
     * against the store and returns the successes and errors collected;
     * the store and both lists end as the batch specification says.
     */
    method BatchUpdateRows(tableId: string, operations: seq<Operation>, uuids: seq<string>, bind: Binder)
      returns (results: seq<Success>, errors: seq<Failure>)
      requires |uuids| == |operations|
      modifies this
      ensures Outcome(rows, results, errors) == Batch(Outcome(old(rows), [], []), tableIds, tableId, operations, uuids, bind)
    {
      results := [];
      errors := [];
      var i := 0;
      while i < |operations|
        invariant 0 <= i <= |operations|
        invariant Outcome(rows, results, errors) == Batch(Outcome(old(rows), [], []), tableIds, tableId, operations[..i], uuids[..i], bind)
      {
        results, errors := Run(tableId, operations[i], uuids[i], bind, results, errors);
        assert operations[..i + 1][..i] == operations[..i];
        assert uuids[..i + 1][..i] == uuids[..i];
        i := i + 1;
      }
      assert operations[..i] == operations;
      assert uuids[..i] == uuids;
    }
  }
}
