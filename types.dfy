/**
 * The dynamic-schema data model (src/types.ts): a table is an id, a name,
 * an ordered list of typed columns and an ordered list of open records.
 */
module Types {

  import opened Seqs

  /** The nine column kinds the views switch on (types.ts declares the first five). */
  datatype ColumnType = Text | Number | Date | Boolean | Select | File | Url | Email | Phone

  /** The record CardView builds for an uploaded file (name, size, type, object URL, lastModified). */
  datatype FileInfo = FileInfo(name: string, size: int, mimeType: string, url: string, lastModified: int)

  /** A cell value. An absent key (JavaScript `undefined`) is modelled by the key being absent from the row. */
  datatype Value = Str(s: string) | Num(n: real) | Bool(b: bool) | Null | FileVal(file: FileInfo)

  /** `options` is `undefined` (None) for every column that is not a select column. */
  datatype Column = Column(id: string, name: string, ctype: ColumnType, options: Option<seq<string>>)

  /** A row is an open record: `id` is an ordinary key beside the column ids. */
  type Row = map<string, Value>

  datatype Table = Table(id: string, name: string, columns: seq<Column>, rows: seq<Row>)

  /** `row.id === rowId`: strict equality, so only a string id can match. */
  predicate HasId(r: Row, id: string)
  {
    "id" in r && r["id"] == Str(id)
  }

  function ColumnIds(cols: seq<Column>): set<string>
  {
    set c | c in cols :: c.id
  }

  /** Row ids are unique within a table. */
  ghost predicate UniqueRowIds(rows: seq<Row>)
  {
    forall i, j, id :: 0 <= i < |rows| && 0 <= j < |rows| && HasId(rows[i], id) && HasId(rows[j], id) ==> i == j
  }

  /** Column ids are unique within a table. */
  ghost predicate UniqueColumnIds(cols: seq<Column>)
  {
    forall i, j :: 0 <= i < |cols| && 0 <= j < |cols| && cols[i].id == cols[j].id ==> i == j
  }

  /** Column `i` is the last column carrying its id, so its entry survives a left-to-right reduce. */
  ghost predicate LastOfId(cols: seq<Column>, i: int)
    requires 0 <= i < |cols|
  {
    forall j :: i < j < |cols| ==> cols[j].id != cols[i].id
  }

  /**
   * `columns.reduce((acc, col) => { acc[col.id] = fill(col); return acc }, {})`:
   * one entry per column id, a later column with the same id overwriting an earlier one.
   */
  function FieldsFor(cols: seq<Column>, fill: Column -> Value): (r: map<string, Value>)
    ensures r.Keys == ColumnIds(cols)
    ensures forall i :: 0 <= i < |cols| && LastOfId(cols, i) ==> r[cols[i].id] == fill(cols[i])
  {
    if cols == [] then map[]
    else
      var init := cols[..|cols| - 1];
      var last := cols[|cols| - 1];
      var acc := FieldsFor(init, fill);
      SplitLastColumn(cols);
      acc[last.id := fill(last)]
  }

  /** Dropping the last column: its id leaves the id set unless an earlier column has it, and a last-of-id column stays one. */
  lemma SplitLastColumn(cols: seq<Column>)
    requires cols != []
    ensures ColumnIds(cols) == ColumnIds(cols[..|cols| - 1]) + {cols[|cols| - 1].id}
    ensures forall i :: 0 <= i < |cols| - 1 && LastOfId(cols, i) ==> LastOfId(cols[..|cols| - 1], i)
  {
    assert cols == cols[..|cols| - 1] + [cols[|cols| - 1]];
  }

  /** With unique column ids every column's entry is its own fill value. */
  lemma FieldsForUnique(cols: seq<Column>, fill: Column -> Value)
    requires UniqueColumnIds(cols)
    ensures forall c :: c in cols ==> FieldsFor(cols, fill)[c.id] == fill(c)
  {
    forall c | c in cols
      ensures FieldsFor(cols, fill)[c.id] == fill(c)
    {
      var i :| 0 <= i < |cols| && cols[i] == c;
      assert LastOfId(cols, i);
    }
  }

  /**
   * `rows.filter(row => row.id !== rowId)`: exactly the rows without that id
   * are kept, each as often as before and in the original order.
   */
  function WithoutId(rows: seq<Row>, id: string): (r: seq<Row>)
    ensures forall x :: x in r <==> x in rows && !HasId(x, id)
    ensures forall x :: multiset(r)[x] == if HasId(x, id) then 0 else multiset(rows)[x]
    ensures IsSubsequence(r, rows)
    ensures (forall x :: x in rows ==> !HasId(x, id)) ==> r == rows
  {
    var r := Filter(rows, x => !HasId(x, id));
    if forall x :: x in rows ==> !HasId(x, id) then
      FilterKeepsAll(rows, x => !HasId(x, id));
      r
    else r
  }
}
