/**
 * The application shell (src/App.tsx): the table list, the active table id,
 * and the create, delete, replace and export actions on them. The fresh
 * id is a parameter; toasts, dialogs and the download itself are not modelled.
 */
module App {

  import opened Seqs
  import opened Types
  import opened Text

  datatype AppState = AppState(tables: seq<Table>, activeId: Option<string>)

  /** The pieces exportData hands to the download: the file name and the serialised snapshot's fields. */
  datatype Export = Export(fileName: string, tableName: string, columns: seq<Column>, rows: seq<Row>)

  /** The columns every new table starts with. */
  const DefaultColumns: seq<Column> := [
    Column("name", "Name", Text, None),
    Column("created", "Created", Date, None)
  ]

  /** `tables.find(table => table.id === activeTableId)`: the first table with the active id. */
  function ActiveTable(tables: seq<Table>, activeId: Option<string>): (r: Option<Table>)
    ensures r.None? <==> activeId.None? || forall i :: 0 <= i < |tables| ==> tables[i].id != activeId.value
    ensures r.Some? ==>
      && activeId.Some? && r.value.id == activeId.value
      && exists i :: 0 <= i < |tables| && tables[i] == r.value && forall j :: 0 <= j < i ==> tables[j].id != activeId.value
  {
    match activeId
    case None => None
    case Some(id) =>
      match FirstIndex(tables, (t: Table) => t.id == id)
      case None => None
      case Some(i) => Some(tables[i])
  }

  /**
   * createTable: a name that is blank after trimming changes nothing;
   * otherwise a table with the trimmed name, the two default columns and
   * no rows is appended and becomes the active one.
   */
  function CreateTable(s: AppState, newTableName: string, freshId: string): (r: AppState)
    ensures AllSpace(newTableName) ==> r == s
    ensures !AllSpace(newTableName) ==>
      && |r.tables| == |s.tables| + 1 && r.tables[..|s.tables|] == s.tables
      && r.tables[|s.tables|] == Table(freshId, Trim(newTableName), DefaultColumns, [])
      && r.activeId == Some(freshId)
  {
    TrimEmptyIffAllSpace(newTableName);
    if Trim(newTableName) == [] then s
    else
      var t := Table(freshId, Trim(newTableName), DefaultColumns, []);
      AppState(s.tables + [t], Some(t.id))
  }

  /** A table created under an id no other table uses is the active table afterwards. */
  lemma CreatedTableIsActive(s: AppState, newTableName: string, freshId: string)
    requires !AllSpace(newTableName)
    requires forall i :: 0 <= i < |s.tables| ==> s.tables[i].id != freshId
    ensures
      var r := CreateTable(s, newTableName, freshId);
      ActiveTable(r.tables, r.activeId) == Some(r.tables[|s.tables|])
      && r.tables[|s.tables|].name != [] && r.tables[|s.tables|].rows == []
  {
    var r := CreateTable(s, newTableName, freshId);
    var a := ActiveTable(r.tables, r.activeId);
    assert r.tables[|s.tables|].id == freshId;
    assert a.Some?;
    var i :| 0 <= i < |r.tables| && r.tables[i] == a.value && a.value.id == freshId
      && forall j :: 0 <= j < i ==> r.tables[j].id != freshId;
    assert i == |s.tables|;
  }

  /**
   * deleteTable: exactly the tables with that id go (the rest keep their
   * order), and the active id is cleared exactly when it was that id.
   */
  function DeleteTable(s: AppState, tableId: string): (r: AppState)
    ensures forall x :: x in r.tables <==> x in s.tables && x.id != tableId
    ensures forall x :: multiset(r.tables)[x] == if x.id == tableId then 0 else multiset(s.tables)[x]
    ensures IsSubsequence(r.tables, s.tables)
    ensures r.activeId == if s.activeId == Some(tableId) then None else s.activeId
  {
    AppState(Filter(s.tables, (t: Table) => t.id != tableId),
             if s.activeId == Some(tableId) then None else s.activeId)
  }

  /** After deleting a table no active table carries its id. */
  lemma DeletedTableIsNotActive(s: AppState, tableId: string)
    ensures
      var r := DeleteTable(s, tableId);
      var a := ActiveTable(r.tables, r.activeId);
      a.Some? ==> a.value.id != tableId && a.value in s.tables
  {
    var r := DeleteTable(s, tableId);
    var a := ActiveTable(r.tables, r.activeId);
    if a.Some? {
      var i :| 0 <= i < |r.tables| && r.tables[i] == a.value;
      assert a.value in r.tables;
    }
  }

  /** updateTable: every table with the updated table's id is replaced by it wholesale; count and order stay. */
  function UpdateTable(s: AppState, updated: Table): (r: AppState)
    ensures r.activeId == s.activeId && |r.tables| == |s.tables|
    ensures forall i :: 0 <= i < |s.tables| ==>
      r.tables[i] == if s.tables[i].id == updated.id then updated else s.tables[i]
  {
    AppState(seq(|s.tables|, i requires 0 <= i < |s.tables| =>
               if s.tables[i].id == updated.id then updated else s.tables[i]),
             s.activeId)
  }

  /** Replacing the active table makes the replacement the active table; the ids in the list do not change. */
  lemma UpdateActiveTable(s: AppState, updated: Table)
    requires ActiveTable(s.tables, s.activeId).Some?
    requires updated.id == s.activeId.value
    ensures ActiveTable(UpdateTable(s, updated).tables, s.activeId) == Some(updated)
  {
    var r := UpdateTable(s, updated);
    var a := ActiveTable(s.tables, s.activeId);
    var i :| 0 <= i < |s.tables| && s.tables[i] == a.value && a.value.id == updated.id
      && forall j :: 0 <= j < i ==> s.tables[j].id != updated.id;
    var b := ActiveTable(r.tables, s.activeId);
    assert r.tables[i] == updated;
    var k :| 0 <= k < |r.tables| && r.tables[k] == b.value && b.value.id == updated.id
      && forall j :: 0 <= j < k ==> r.tables[j].id != updated.id;
    assert r.tables[k].id == updated.id;
    assert k == i;
  }

  /**
   * The download name: the table name lowercased, each run of white space
   * replaced by one '-', then ".json"; it holds no white space and no
   * upper-case letter.
   */
  function ExportFileName(name: string): (f: string)
    ensures |f| >= 5 && f[|f| - 5..] == ".json"
    ensures f[..|f| - 5] == ReplaceSpaceRuns(ToLower(name))
    ensures NoSpace(f)
    ensures NoUpper(f)
  {
    var stem := ReplaceSpaceRuns(ToLower(name));
    LowerSlug(ToLower(name));
    JsonSuffix(stem);
    stem + ".json"
  }

  /** Appending ".json" to text without white space or upper-case letters adds neither. */
  lemma JsonSuffix(stem: string)
    requires NoSpace(stem) && NoUpper(stem)
    ensures NoSpace(stem + ".json") && NoUpper(stem + ".json")
    ensures (stem + ".json")[..|stem|] == stem && (stem + ".json")[|stem|..] == ".json"
  {
    var f := stem + ".json";
    forall i | 0 <= i < |f| ensures !IsSpace(f[i]) && !('A' <= f[i] <= 'Z') {
      if i >= |stem| {
        assert f[i] == ".json"[i - |stem|];
      }
    }
  }

  /** Replacing white-space runs in text without upper-case letters adds none. */
  lemma {:induction false} LowerSlug(s: string)
    requires NoUpper(s)
    ensures NoUpper(ReplaceSpaceRuns(s))
    decreases |s|
  {
    if s != [] {
      if IsSpace(s[0]) {
        var d := TrimStart(s[1..]);
        NoUpperSuffix(s[1..], |s[1..]| - |d|);
        LowerSlug(d);
        NoUpperCons('-', ReplaceSpaceRuns(d));
      } else {
        NoUpperSuffix(s, 1);
        LowerSlug(s[1..]);
        NoUpperCons(s[0], ReplaceSpaceRuns(s[1..]));
      }
    }
  }

  lemma NoUpperSuffix(s: string, j: int)
    requires 0 <= j <= |s| && NoUpper(s)
    ensures NoUpper(s[j..])
  {
    assert forall i :: 0 <= i < |s[j..]| ==> s[j..][i] == s[j + i];
  }

  lemma NoUpperCons(c: char, s: string)
    requires !('A' <= c <= 'Z') && NoUpper(s)
    ensures NoUpper([c] + s)
  {
    assert forall i :: 0 < i < |[c] + s| ==> ([c] + s)[i] == s[i - 1];
  }

  /** exportData: nothing without an active table; otherwise that table's name, columns and rows under its file name. */
  function ExportData(s: AppState): (r: Option<Export>)
    ensures r.None? <==> ActiveTable(s.tables, s.activeId).None?
    ensures r.Some? ==>
      var t := ActiveTable(s.tables, s.activeId).value;
      r.value == Export(ExportFileName(t.name), t.name, t.columns, t.rows)
  {
    match ActiveTable(s.tables, s.activeId)
    case None => None
    case Some(t) => Some(Export(ExportFileName(t.name), t.name, t.columns, t.rows))
  }
}
