/**
 * The table collection hook (src/hooks/use-tables.ts): which store its
 * operations go to, and the local-storage branches, which rewrite the
 * table list with map/filter and shallow merges. Fresh ids are parameters;
 * the remote calls, localStorage, toasts and reloads are not modelled.
 */
module TablesHook {

  import opened Seqs
  import opened Types

  // ------------------------------------------------------- branch selection

  /** `VITE_USE_SUPABASE === 'true'`; None when the variable is unset. */
  predicate UsingSupabase(env: Option<string>)
  {
    env == Some("true")
  }

  /** `VITE_USE_SUPABASE !== 'true'`. */
  predicate UsingBackend(env: Option<string>)
  {
    env != Some("true")
  }

  datatype Store = Remote | LocalStorage

  /**
   * The store every mutating operation picks with
   * `if (isUsingSupabase || isUsingBackend)`: the flags are complements,
   * so it is always the remote API and the local branches never run.
   */
  function StoreFor(env: Option<string>): (s: Store)
    ensures s == Remote && s != LocalStorage
  {
    if UsingSupabase(env) || UsingBackend(env) then Remote else LocalStorage
  }

  // -------------------------------------------------------- local branches

  /** `Partial<Table>`: the fields present in an update. */
  datatype TablePatch = TablePatch(id: Option<string>, name: Option<string>, columns: Option<seq<Column>>, rows: Option<seq<Row>>)

  /** `{ ...table, ...patch }`: present fields overwrite, absent ones keep the table's. */
  function Merge(t: Table, p: TablePatch): (r: Table)
    ensures r.id == (if p.id.Some? then p.id.value else t.id)
    ensures r.name == (if p.name.Some? then p.name.value else t.name)
    ensures r.columns == (if p.columns.Some? then p.columns.value else t.columns)
    ensures r.rows == (if p.rows.Some? then p.rows.value else t.rows)
  {
    Table(
      match p.id case Some(v) => v case None => t.id,
      match p.name case Some(v) => v case None => t.name,
      match p.columns case Some(v) => v case None => t.columns,
      match p.rows case Some(v) => v case None => t.rows)
  }

  function Pick<T>(a: Option<T>, b: Option<T>): Option<T>
  {
    if b.Some? then b else a
  }

  /** `{ ...p, ...q }` on patches. */
  function Combine(p: TablePatch, q: TablePatch): TablePatch
  {
    TablePatch(Pick(p.id, q.id), Pick(p.name, q.name), Pick(p.columns, q.columns), Pick(p.rows, q.rows))
  }

  /** Two shallow merges in a row are one merge of the combined patch; the empty patch changes nothing. */
  lemma MergeCompose(t: Table, p: TablePatch, q: TablePatch)
    ensures Merge(Merge(t, p), q) == Merge(t, Combine(p, q))
    ensures Merge(t, TablePatch(None, None, None, None)) == t
    ensures Merge(Merge(t, p), p) == Merge(t, p)
  {
  }

  /**
   * Local createTable: appends one table with the fresh id and no rows,
   * whatever id and rows the input carried; the existing tables stay.
   */
  function LocalCreateTable(tables: seq<Table>, data: Table, freshId: string): (r: seq<Table>)
    ensures |r| == |tables| + 1 && r[..|tables|] == tables
    ensures r[|tables|] == Table(freshId, data.name, data.columns, [])
  {
    tables + [data.(id := freshId, rows := [])]
  }

  /** Local updateTable: every table with that id is shallow-merged with the patch; the others stay. */
  function LocalUpdateTable(tables: seq<Table>, tableId: string, patch: TablePatch): (r: seq<Table>)
    ensures |r| == |tables|
    ensures forall i :: 0 <= i < |tables| ==>
      r[i] == if tables[i].id == tableId then Merge(tables[i], patch) else tables[i]
  {
    seq(|tables|, i requires 0 <= i < |tables| =>
      if tables[i].id == tableId then Merge(tables[i], patch) else tables[i])
  }

  /** Local deleteTable: exactly the tables with that id go; the rest keep their order. */
  function LocalDeleteTable(tables: seq<Table>, tableId: string): (r: seq<Table>)
    ensures forall x :: x in r <==> x in tables && x.id != tableId
    ensures forall x :: multiset(r)[x] == if x.id == tableId then 0 else multiset(tables)[x]
    ensures IsSubsequence(r, tables)
  {
    Filter(tables, (t: Table) => t.id != tableId)
  }

  /**
   * Local addRow: every table with that id gets one row appended, the
   * supplied data with the fresh id overriding any id it had; the other
   * tables stay.
   */
  function LocalAddRow(tables: seq<Table>, tableId: string, rowData: Row, freshId: string): (r: seq<Table>)
    ensures |r| == |tables|
    ensures forall i :: 0 <= i < |tables| && tables[i].id != tableId ==> r[i] == tables[i]
    ensures forall i :: 0 <= i < |tables| && tables[i].id == tableId ==>
      && r[i].id == tables[i].id && r[i].name == tables[i].name && r[i].columns == tables[i].columns
      && |r[i].rows| == |tables[i].rows| + 1 && r[i].rows[..|tables[i].rows|] == tables[i].rows
      && HasId(r[i].rows[|tables[i].rows|], freshId)
      && r[i].rows[|tables[i].rows|].Keys == rowData.Keys + {"id"}
      && forall k :: k in rowData && k != "id" ==> r[i].rows[|tables[i].rows|][k] == rowData[k]
  {
    seq(|tables|, i requires 0 <= i < |tables| =>
      if tables[i].id == tableId then tables[i].(rows := tables[i].rows + [rowData["id" := Str(freshId)]])
      else tables[i])
  }

  /**
   * Local updateRow: in every table with that id, every row with that row
   * id gets the supplied keys written over it and keeps its other keys;
   * everything else stays, and an unknown row id changes nothing.
   */
  function LocalUpdateRow(tables: seq<Table>, tableId: string, rowId: string, rowData: Row): (r: seq<Table>)
    ensures |r| == |tables|
    ensures forall i :: 0 <= i < |tables| && tables[i].id != tableId ==> r[i] == tables[i]
    ensures forall i :: 0 <= i < |tables| && tables[i].id == tableId ==>
      && r[i].id == tables[i].id && r[i].name == tables[i].name && r[i].columns == tables[i].columns
      && |r[i].rows| == |tables[i].rows|
      && forall j :: 0 <= j < |tables[i].rows| ==>
           if HasId(tables[i].rows[j], rowId) then
             && r[i].rows[j].Keys == tables[i].rows[j].Keys + rowData.Keys
             && (forall k :: k in rowData ==> r[i].rows[j][k] == rowData[k])
             && (forall k :: k in tables[i].rows[j] && k !in rowData ==> r[i].rows[j][k] == tables[i].rows[j][k])
           else r[i].rows[j] == tables[i].rows[j]
  {
    seq(|tables|, i requires 0 <= i < |tables| =>
      if tables[i].id == tableId then
        tables[i].(rows := seq(|tables[i].rows|, j requires 0 <= j < |tables[i].rows| =>
          if HasId(tables[i].rows[j], rowId) then tables[i].rows[j] + rowData else tables[i].rows[j]))
      else tables[i])
  }

  /** Local deleteRow: exactly the rows with that row id go, from the tables with that id only, the rest keeping their multiplicity and order; all other tables are identical. */
  function LocalDeleteRow(tables: seq<Table>, tableId: string, rowId: string): (r: seq<Table>)
    ensures |r| == |tables|
    ensures forall i :: 0 <= i < |tables| && tables[i].id != tableId ==> r[i] == tables[i]
    ensures forall i :: 0 <= i < |tables| && tables[i].id == tableId ==>
      && r[i].id == tables[i].id && r[i].name == tables[i].name && r[i].columns == tables[i].columns
      && (forall x :: x in r[i].rows <==> x in tables[i].rows && !HasId(x, rowId))
      && (forall x :: multiset(r[i].rows)[x] == if HasId(x, rowId) then 0 else multiset(tables[i].rows)[x])
      && IsSubsequence(r[i].rows, tables[i].rows)
  {
    seq(|tables|, i requires 0 <= i < |tables| =>
      if tables[i].id == tableId then tables[i].(rows := WithoutId(tables[i].rows, rowId)) else tables[i])
  }

  /** Updating a row id that no row of the table carries changes nothing and raises nothing. */
  lemma UpdateUnknownRowIsNoOp(tables: seq<Table>, tableId: string, rowId: string, rowData: Row)
    requires forall i, j :: 0 <= i < |tables| && tables[i].id == tableId && 0 <= j < |tables[i].rows| ==> !HasId(tables[i].rows[j], rowId)
    ensures LocalUpdateRow(tables, tableId, rowId, rowData) == tables
  {
    var r := LocalUpdateRow(tables, tableId, rowId, rowData);
    forall i | 0 <= i < |tables| ensures r[i] == tables[i] {
      if tables[i].id == tableId {
        assert r[i].rows == tables[i].rows;
      }
    }
  }

  /** Adding a row under a fresh id and deleting that id again gives back the tables. */
  lemma AddThenDeleteRow(tables: seq<Table>, tableId: string, rowData: Row, freshId: string)
    requires forall i, j :: 0 <= i < |tables| && tables[i].id == tableId && 0 <= j < |tables[i].rows| ==> !HasId(tables[i].rows[j], freshId)
    ensures LocalDeleteRow(LocalAddRow(tables, tableId, rowData, freshId), tableId, freshId) == tables
  {
    var a := LocalAddRow(tables, tableId, rowData, freshId);
    var r := LocalDeleteRow(a, tableId, freshId);
    forall i | 0 <= i < |tables| ensures r[i] == tables[i] {
      if tables[i].id == tableId {
        var rows := tables[i].rows;
        var added := rowData["id" := Str(freshId)];
        assert a[i].rows == rows + [added];
        FilterDropsLast(rows, added, (x: Row) => !HasId(x, freshId));
      }
    }
  }

  /** Creating a table under an id no table uses and deleting that id again gives back the tables. */
  lemma CreateThenDeleteTable(tables: seq<Table>, data: Table, freshId: string)
    requires forall i :: 0 <= i < |tables| ==> tables[i].id != freshId
    ensures LocalDeleteTable(LocalCreateTable(tables, data, freshId), freshId) == tables
  {
    FilterDropsLast(tables, data.(id := freshId, rows := []), (t: Table) => t.id != freshId);
  }
}
