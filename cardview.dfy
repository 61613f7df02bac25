/**
 * The card view's row operations (src/components/CardView.tsx). Its
 * defaults differ from the grid's: a number column starts at 0 and a file
 * column at null.
 */
module CardView {

  import opened Seqs
  import opened Types
  import opened Coerce

  /** The row being edited and its edit buffer; None when nothing is being edited. */
  datatype RowEdit = RowEdit(rowId: string, values: Row)

  /** The card view's value for a column the new-row form left unset: always of the column's type, and falsy except a date. */
  function CardDefault(ct: ColumnType, today: string): (v: Value)
    ensures Conforms(v, ct)
    ensures Truthy(Some(v)) <==> ct == Date && today != ""
  {
    match ct
    case Boolean => Bool(false)
    case Date => Str(today)
    case Number => Num(0.0)
    case File => Null
    case _ => Str("")
  }

  /**
   * addNewRow: appends one row whose keys are its id and exactly the
   * table's column ids; each column takes the entered value when there is
   * one and the card default otherwise. Entries for other keys are dropped.
   */
  function AddNewRow(t: Table, entered: map<string, Value>, freshId: string, today: string): (r: Table)
    ensures r.id == t.id && r.name == t.name && r.columns == t.columns
    ensures |r.rows| == |t.rows| + 1 && r.rows[..|t.rows|] == t.rows
    ensures r.rows[|t.rows|].Keys == {"id"} + ColumnIds(t.columns)
    ensures "id" !in ColumnIds(t.columns) ==> HasId(r.rows[|t.rows|], freshId)
    ensures forall i :: 0 <= i < |t.columns| && LastOfId(t.columns, i) ==>
      r.rows[|t.rows|][t.columns[i].id] ==
        if t.columns[i].id in entered then entered[t.columns[i].id] else CardDefault(t.columns[i].ctype, today)
  {
    var fields := FieldsFor(t.columns, (c: Column) => if c.id in entered then entered[c.id] else CardDefault(c.ctype, today));
    t.(rows := t.rows + [map["id" := Str(freshId)] + fields])
  }

  /** The value a new card row holds in column `i`: the entered one, else false, today, 0, null or '' by the column's type. */
  lemma NewRowCell(t: Table, entered: map<string, Value>, freshId: string, today: string, i: int)
    requires 0 <= i < |t.columns| && LastOfId(t.columns, i)
    ensures
      var c := t.columns[i];
      var v := AddNewRow(t, entered, freshId, today).rows[|t.rows|][c.id];
      && (c.id in entered ==> v == entered[c.id])
      && (c.id !in entered && c.ctype == Boolean ==> v == Bool(false))
      && (c.id !in entered && c.ctype == Date ==> v == Str(today))
      && (c.id !in entered && c.ctype == Number ==> v == Num(0.0))
      && (c.id !in entered && c.ctype == File ==> v == Null)
      && (c.id !in entered && c.ctype in {Text, Select, Url, Email, Phone} ==> v == Str(""))
  {
  }

  /** startEditRow: the edit buffer is a copy of the row, keyed by its id. */
  function StartEditRow(row: Row): (e: Option<RowEdit>)
    requires "id" in row && row["id"].Str?
    ensures e.Some? && HasId(row, e.value.rowId) && e.value.values == row
  {
    Some(RowEdit(row["id"].s, row))
  }

  /**
   * saveEdit: when nothing is being edited (no row, or the falsy id '')
   * the table is unchanged; otherwise every row with the edited id is
   * replaced wholesale by the buffer, with no merge, and the rest stay.
   */
  function SaveEdit(t: Table, editing: Option<RowEdit>): (r: Table)
    ensures r.id == t.id && r.name == t.name && r.columns == t.columns && |r.rows| == |t.rows|
    ensures editing.None? || editing.value.rowId == "" ==> r == t
    ensures editing.Some? && editing.value.rowId != "" ==>
      forall i :: 0 <= i < |t.rows| ==>
        r.rows[i] == if HasId(t.rows[i], editing.value.rowId) then editing.value.values else t.rows[i]
  {
    match editing
    case None => t
    case Some(e) =>
      if e.rowId == "" then t
      else t.(rows := seq(|t.rows|, i requires 0 <= i < |t.rows| =>
                        if HasId(t.rows[i], e.rowId) then e.values else t.rows[i]))
  }

  /** Starting to edit a row and saving without changes leaves the rows as they were. */
  lemma StartThenSaveIsNoOp(t: Table, k: nat)
    requires UniqueRowIds(t.rows)
    requires k < |t.rows| && "id" in t.rows[k] && t.rows[k]["id"].Str?
    ensures SaveEdit(t, StartEditRow(t.rows[k])) == t
  {
    var e := StartEditRow(t.rows[k]);
    var r := SaveEdit(t, e);
    forall i | 0 <= i < |t.rows| ensures r.rows[i] == t.rows[i] {
      if e.value.rowId != "" && HasId(t.rows[i], e.value.rowId) {
        assert i == k;
      }
    }
  }

  /** deleteRow: exactly the rows carrying that id go; the rest keep their order. */
  function DeleteRow(t: Table, rowId: string): (r: Table)
    ensures r.id == t.id && r.name == t.name && r.columns == t.columns
    ensures forall x :: x in r.rows <==> x in t.rows && !HasId(x, rowId)
    ensures forall x :: multiset(r.rows)[x] == if HasId(x, rowId) then 0 else multiset(t.rows)[x]
    ensures IsSubsequence(r.rows, t.rows)
  {
    t.(rows := WithoutId(t.rows, rowId))
  }

  /** The number input's change handler: the parsed number, or 0 when the text is not a number. */
  function NumberInput(text: string, parse: NumberParser): (v: Value)
    ensures v.Num? && Conforms(v, Number)
    ensures parse(text).None? ==> v == Num(0.0)
    ensures parse(text).Some? ==> v == Num(parse(text).value)
  {
    Num(ParseOrZero(text, parse))
  }

  /**
   * The key the card title reads: the first column's id, or, with no
   * columns, `undefined` used as a property name, which is the key "undefined".
   */
  function TitleKey(t: Table): string
  {
    if |t.columns| == 0 then "undefined" else t.columns[0].id
  }

  const Untitled: string := "未命名"

  /**
   * The card title: the text of the row's first-column value, or '未命名'
   * when that value is falsy (absent, null, '', 0, false).
   */
  function CardTitle(t: Table, row: Row, show: NumberPrinter): (title: string)
    ensures !Truthy(CellAt(row, TitleKey(t))) ==> title == Untitled
    ensures Truthy(CellAt(row, TitleKey(t))) ==> title == Stringify(row[TitleKey(t)], show)
    ensures Truthy(CellAt(row, TitleKey(t))) && row[TitleKey(t)].Str? ==> title == row[TitleKey(t)].s && title != []
    ensures |t.columns| == 0 && "undefined" !in row ==> title == Untitled
  {
    var v := CellAt(row, TitleKey(t));
    if Truthy(v) then Stringify(v.value, show) else Untitled
  }
}
