/**
 * The grid view's table operations (src/components/DataTable.tsx). Each one
 * builds the next table value from the current one; the open edit and the
 * sort setting are inputs, and the fresh id (`Date.now()`) and today's date
 * are parameters.
 */
module DataTable {

  import opened Seqs
  import opened Types
  import opened Text
  import opened Coerce

  /** The add-column dialog: the entered name, type and option lines. */
  datatype ColumnDraft = ColumnDraft(name: string, ctype: ColumnType, options: seq<string>)

  /** The cell being edited. */
  datatype CellRef = CellRef(rowId: string, columnId: string)

  datatype Direction = Asc | Desc

  datatype SortConfig = SortConfig(key: string, direction: Direction)

  // ---------------------------------------------------------------- columns

  /** `options.filter(opt => opt.trim())`: the options that are not blank, untrimmed, in order. */
  function KeptOptions(options: seq<string>): (r: seq<string>)
    ensures forall o :: o in r <==> o in options && !AllSpace(o)
    ensures forall o :: multiset(r)[o] == if AllSpace(o) then 0 else multiset(options)[o]
    ensures IsSubsequence(r, options)
  {
    var r := Filter(options, o => Trim(o) != []);
    forall o ensures Trim(o) != [] <==> !AllSpace(o) { TrimEmptyIffAllSpace(o); }
    r
  }

  /**
   * addColumn: a name that is blank after trimming leaves the table as it
   * is; otherwise one column is appended with the trimmed name, the chosen
   * type, and options only for a select column.
   */
  function AddColumn(t: Table, draft: ColumnDraft, freshId: string): (r: Table)
    ensures AllSpace(draft.name) ==> r == t
    ensures !AllSpace(draft.name) ==>
      && r.id == t.id && r.name == t.name && r.rows == t.rows
      && |r.columns| == |t.columns| + 1 && r.columns[..|t.columns|] == t.columns
      && r.columns[|t.columns|].id == freshId
      && r.columns[|t.columns|].name == Trim(draft.name) && r.columns[|t.columns|].name != []
      && r.columns[|t.columns|].ctype == draft.ctype
      && r.columns[|t.columns|].options == (if draft.ctype == Select then Some(KeptOptions(draft.options)) else None)
  {
    TrimEmptyIffAllSpace(draft.name);
    if Trim(draft.name) == [] then t
    else
      var column := Column(freshId, Trim(draft.name), draft.ctype,
                           if draft.ctype == Select then Some(KeptOptions(draft.options)) else None);
      t.(columns := t.columns + [column])
  }

  /**
   * deleteColumn: every column with that id goes, and the key is stripped
   * from every row (even `id`); row count, row order and all other keys stay.
   */
  function DeleteColumn(t: Table, columnId: string): (r: Table)
    ensures r.id == t.id && r.name == t.name
    ensures forall c :: c in r.columns <==> c in t.columns && c.id != columnId
    ensures IsSubsequence(r.columns, t.columns)
    ensures forall c :: multiset(r.columns)[c] == if c.id == columnId then 0 else multiset(t.columns)[c]
    ensures |r.rows| == |t.rows|
    ensures forall i :: 0 <= i < |t.rows| ==>
      && r.rows[i].Keys == t.rows[i].Keys - {columnId}
      && forall k :: k in r.rows[i] ==> r.rows[i][k] == t.rows[i][k]
  {
    t.(columns := Filter(t.columns, (c: Column) => c.id != columnId),
       rows := seq(|t.rows|, i requires 0 <= i < |t.rows| => t.rows[i] - {columnId}))
  }

  /** Adding a column under an id no column or row uses and deleting it again gives back the table. */
  lemma AddThenDeleteColumn(t: Table, draft: ColumnDraft, freshId: string)
    requires forall c :: c in t.columns ==> c.id != freshId
    requires forall i :: 0 <= i < |t.rows| ==> freshId !in t.rows[i]
    ensures DeleteColumn(AddColumn(t, draft, freshId), freshId) == t
  {
    var a := AddColumn(t, draft, freshId);
    var r := DeleteColumn(a, freshId);
    assert a.rows == t.rows;
    if AllSpace(draft.name) {
      FilterKeepsAll(t.columns, (c: Column) => c.id != freshId);
    } else {
      assert a.columns == t.columns + [a.columns[|t.columns|]];
      FilterDropsLast(t.columns, a.columns[|t.columns|], (c: Column) => c.id != freshId);
    }
    forall i | 0 <= i < |t.rows| ensures r.rows[i] == t.rows[i] {
      RemoveAbsentKey(t.rows[i], freshId);
    }
  }

  lemma RemoveAbsentKey(m: Row, k: string)
    requires k !in m
    ensures m - {k} == m
  {
    assert (m - {k}).Keys == m.Keys;
  }

  // ------------------------------------------------------------------- rows

  /**
   * The grid's value for a fresh cell: false, today, or '' (a number
   * column too). Only a date cell is truthy, and number and file cells do
   * not hold a value of their own type.
   */
  function GridDefault(ct: ColumnType, today: string): (v: Value)
    ensures Truthy(Some(v)) <==> ct == Date && today != ""
    ensures ct != Number && ct != File ==> Conforms(v, ct)
    ensures ct == Number || ct == File ==> v == Str("")
  {
    if ct == Boolean then Bool(false) else if ct == Date then Str(today) else Str("")
  }

  /**
   * addRow: one row is appended holding the fresh id and, for every column
   * id, the grid default of the last column with that id; earlier rows stay.
   */
  function AddRow(t: Table, freshId: string, today: string): (r: Table)
    ensures r.id == t.id && r.name == t.name && r.columns == t.columns
    ensures |r.rows| == |t.rows| + 1 && r.rows[..|t.rows|] == t.rows
    ensures r.rows[|t.rows|].Keys == {"id"} + ColumnIds(t.columns)
    ensures "id" !in ColumnIds(t.columns) ==> HasId(r.rows[|t.rows|], freshId)
    ensures forall i :: 0 <= i < |t.columns| && LastOfId(t.columns, i) ==>
      var v := r.rows[|t.rows|][t.columns[i].id];
      && (t.columns[i].ctype == Boolean ==> v == Bool(false))
      && (t.columns[i].ctype == Date ==> v == Str(today))
      && (t.columns[i].ctype != Boolean && t.columns[i].ctype != Date ==> v == Str(""))
  {
    var fields := FieldsFor(t.columns, (c: Column) => GridDefault(c.ctype, today));
    t.(rows := t.rows + [map["id" := Str(freshId)] + fields])
  }

  /** deleteRow: exactly the rows carrying that id go; the rest keep their order. */
  function DeleteRow(t: Table, rowId: string): (r: Table)
    ensures r.id == t.id && r.name == t.name && r.columns == t.columns
    ensures forall x :: x in r.rows <==> x in t.rows && !HasId(x, rowId)
    ensures forall x :: multiset(r.rows)[x] == if HasId(x, rowId) then 0 else multiset(t.rows)[x]
    ensures IsSubsequence(r.rows, t.rows)
  {
    t.(rows := WithoutId(t.rows, rowId))
  }

  /** A row added under an id no row carries is exactly what deleting that id takes away. */
  lemma AddThenDeleteRow(t: Table, freshId: string, today: string)
    requires "id" !in ColumnIds(t.columns)
    requires forall i :: 0 <= i < |t.rows| ==> !HasId(t.rows[i], freshId)
    ensures DeleteRow(AddRow(t, freshId, today), freshId) == t
  {
    var a := AddRow(t, freshId, today);
    assert a.rows == t.rows + [a.rows[|t.rows|]];
    FilterDropsLast(t.rows, a.rows[|t.rows|], (x: Row) => !HasId(x, freshId));
  }

  // ------------------------------------------------------------------ edits

  /** `table.columns.find(col => col.id === id)`. */
  function FindColumn(cols: seq<Column>, id: string): (r: Option<Column>)
    ensures r.Some? ==> r.value.id == id && exists i :: 0 <= i < |cols| && cols[i] == r.value && forall j :: 0 <= j < i ==> cols[j].id != id
    ensures r.None? <==> id !in ColumnIds(cols)
  {
    match FirstIndex(cols, (c: Column) => c.id == id)
    case None =>
      assert forall c :: c in cols ==> c.id != id;
      None
    case Some(i) => Some(cols[i])
  }

  /** The text the editor opens with: `String(currentValue || '')`. */
  function EditText(v: Option<Value>, show: NumberPrinter): (text: string)
    ensures !Truthy(v) ==> text == ""
    ensures Truthy(v) ==> text == Stringify(v.value, show)
    ensures Truthy(v) && v.value.Str? ==> text == v.value.s && text != ""
  {
    if Truthy(v) then Stringify(v.value, show) else ""
  }

  /**
   * The coercion saveEdit applies: a number column gets the parsed number
   * or 0, a boolean column gets whether the text is exactly 'true', and
   * any other column gets the text itself.
   */
  function CoerceEdit(ct: ColumnType, text: string, parse: NumberParser): (v: Value)
    ensures ct == Number ==> v.Num? && (parse(text).None? ==> v.n == 0.0) && (parse(text).Some? ==> v.n == parse(text).value)
    ensures ct == Boolean ==> (v == Bool(true) <==> text == "true") && v.Bool?
    ensures ct != Number && ct != Boolean ==> v == Str(text)
  {
    match ct
    case Number => Num(ParseOrZero(text, parse))
    case Boolean => Bool(text == "true")
    case _ => Str(text)
  }

  /** Opening the editor on a value of the column's type and saving the unchanged text gives the value back. */
  lemma EditTextRoundTrip(ct: ColumnType, v: Value, show: NumberPrinter, parse: NumberParser)
    requires ct != File && Conforms(v, ct)
    requires v.Num? ==> ReadsBack(v.n, show, parse)
    ensures CoerceEdit(ct, EditText(Some(v), show), parse) == v
  {
    if v.Str? {
      assert EditText(Some(v), show) == v.s;
    }
  }

  /**
   * saveEdit: with no edit open or an unknown column nothing changes;
   * otherwise the edited cell of every row with the edited id is set to
   * the coerced text, and nothing else changes.
   */
  function SaveEdit(t: Table, editing: Option<CellRef>, editValue: string, parse: NumberParser): (r: Table)
    ensures editing.None? ==> r == t
    ensures editing.Some? && editing.value.columnId !in ColumnIds(t.columns) ==> r == t
    ensures r.id == t.id && r.name == t.name && r.columns == t.columns && |r.rows| == |t.rows|
    ensures editing.Some? && editing.value.columnId in ColumnIds(t.columns) ==>
      var c := FindColumn(t.columns, editing.value.columnId).value;
      forall i :: 0 <= i < |t.rows| ==>
        r.rows[i] == if HasId(t.rows[i], editing.value.rowId)
                     then t.rows[i][editing.value.columnId := CoerceEdit(c.ctype, editValue, parse)]
                     else t.rows[i]
  {
    match editing
    case None => t
    case Some(cell) =>
      match FindColumn(t.columns, cell.columnId)
      case None => t
      case Some(column) =>
        var v := CoerceEdit(column.ctype, editValue, parse);
        t.(rows := seq(|t.rows|, i requires 0 <= i < |t.rows| =>
                     if HasId(t.rows[i], cell.rowId) then t.rows[i][cell.columnId := v] else t.rows[i]))
  }

  /**
   * Opening the editor on a present cell of the column's type and saving
   * without typing leaves the table unchanged.
   */
  lemma SaveUnchangedEditIsNoOp(t: Table, k: nat, columnId: string, show: NumberPrinter, parse: NumberParser)
    requires UniqueRowIds(t.rows)
    requires k < |t.rows| && "id" in t.rows[k] && t.rows[k]["id"].Str?
    requires columnId in t.rows[k] && columnId in ColumnIds(t.columns)
    requires FindColumn(t.columns, columnId).value.ctype != File
    requires Conforms(t.rows[k][columnId], FindColumn(t.columns, columnId).value.ctype)
    requires t.rows[k][columnId].Num? ==> ReadsBack(t.rows[k][columnId].n, show, parse)
    ensures SaveEdit(t, Some(CellRef(t.rows[k]["id"].s, columnId)), EditText(CellAt(t.rows[k], columnId), show), parse) == t
  {
    var id := t.rows[k]["id"].s;
    var c := FindColumn(t.columns, columnId).value;
    var v := t.rows[k][columnId];
    EditTextRoundTrip(c.ctype, v, show, parse);
    var r := SaveEdit(t, Some(CellRef(id, columnId)), EditText(CellAt(t.rows[k], columnId), show), parse);
    forall i | 0 <= i < |t.rows| ensures r.rows[i] == t.rows[i] {
      if HasId(t.rows[i], id) {
        assert i == k;
        assert t.rows[k][columnId := v] == t.rows[k];
      }
    }
  }

  /**
   * The exception: a number cell still holding the grid's default '' is
   * opened with the text '', which `parseFloat` reads as NaN, so saving it
   * untouched writes 0 into the cell and the table changes.
   */
  lemma SaveUntouchedEmptyNumberCell(t: Table, k: nat, columnId: string, show: NumberPrinter, parse: NumberParser)
    requires k < |t.rows| && "id" in t.rows[k] && t.rows[k]["id"].Str?
    requires columnId in ColumnIds(t.columns) && FindColumn(t.columns, columnId).value.ctype == Number
    requires columnId in t.rows[k] && t.rows[k][columnId] == Str("")
    requires parse("").None?
    ensures var r := SaveEdit(t, Some(CellRef(t.rows[k]["id"].s, columnId)), EditText(CellAt(t.rows[k], columnId), show), parse);
      r.rows[k][columnId] == Num(0.0) && r != t
  {
    var r := SaveEdit(t, Some(CellRef(t.rows[k]["id"].s, columnId)), EditText(CellAt(t.rows[k], columnId), show), parse);
    assert r.rows[k][columnId] == Num(0.0);
    assert r.rows[k] != t.rows[k];
  }

  // ---------------------------------------------------------------- sorting

  /** handleSort: descending only when the same column is currently ascending, otherwise ascending. */
  function HandleSort(config: Option<SortConfig>, columnId: string): (r: SortConfig)
    ensures r.key == columnId
    ensures r.direction == Desc <==> config == Some(SortConfig(columnId, Asc))
  {
    if config.Some? && config.value.key == columnId && config.value.direction == Asc
    then SortConfig(columnId, Desc)
    else SortConfig(columnId, Asc)
  }

  /** Clicking the same header again always flips the direction. */
  lemma HandleSortToggles(config: Option<SortConfig>, columnId: string)
    ensures HandleSort(Some(HandleSort(config, columnId)), columnId).direction
         != HandleSort(config, columnId).direction
  {
  }

  /**
   * What the comparator's `<` and `>` see of a cell: its kind and payload,
   * with every file record reading as the same object.
   */
  datatype SortKey = KUndefined | KNull | KBool(b: bool) | KNum(n: real) | KStr(s: string) | KObject

  /** The cell read by `a[key]`: absent, null, or its kind with the payload (every file record alike). */
  function KeyOf(row: Row, key: string): (k: SortKey)
    ensures k == KUndefined <==> key !in row
    ensures k == KObject <==> key in row && row[key].FileVal?
    ensures key in row && row[key].Str? ==> k == KStr(row[key].s)
    ensures key in row && row[key].Num? ==> k == KNum(row[key].n)
    ensures key in row && row[key].Bool? ==> k == KBool(row[key].b)
  {
    if key !in row then KUndefined
    else match row[key]
      case Null => KNull
      case Bool(b) => KBool(b)
      case Num(n) => KNum(n)
      case Str(s) => KStr(s)
      case FileVal(_) => KObject
  }

  /**
   * The UTF-16 code units JavaScript stores for one character: the
   * character itself below U+10000, otherwise a high and a low surrogate.
   */
  function CodeUnits(c: char): (u: seq<int>)
    ensures 1 <= |u| <= 2
    ensures |u| == 1 <==> c as int < 0x10000
    ensures |u| == 1 ==> u[0] == c as int && !(0xD800 <= u[0] < 0xDC00)
    ensures |u| == 2 ==> 0xD800 <= u[0] < 0xDC00 && 0xDC00 <= u[1] < 0xE000
  {
    if c as int < 0x10000 then [c as int]
    else
      var v := c as int - 0x10000;
      [0xD800 + v / 0x400, 0xDC00 + v % 0x400]
  }

  /**
   * The UTF-16 encoding of a string: the code units of its characters, in
   * order. It has one unit per character exactly when no character lies
   * above U+FFFF, and never fewer.
   */
  function Utf16(s: string): (u: seq<int>)
    ensures |u| >= |s|
    ensures |u| == |s| <==> forall i :: 0 <= i < |s| ==> s[i] as int < 0x10000
  {
    if s == [] then [] else CodeUnits(s[0]) + Utf16(s[1..])
  }

  lemma CodeUnitsInjective(c: char, d: char)
    requires CodeUnits(c) == CodeUnits(d)
    ensures c == d
  {
    if c as int >= 0x10000 {
      var v, w := c as int - 0x10000, d as int - 0x10000;
      assert v / 0x400 == w / 0x400 && v % 0x400 == w % 0x400;
      assert v == 0x400 * (v / 0x400) + v % 0x400;
      assert w == 0x400 * (w / 0x400) + w % 0x400;
    }
  }

  /** Different strings have different UTF-16 encodings. */
  lemma {:induction false} Utf16Injective(a: string, b: string)
    requires Utf16(a) == Utf16(b)
    ensures a == b
  {
    if a != [] && b != [] {
      var ua, ub := CodeUnits(a[0]), CodeUnits(b[0]);
      assert Utf16(a) == ua + Utf16(a[1..]) && Utf16(b) == ub + Utf16(b[1..]);
      assert ua[0] == Utf16(a)[0] == ub[0];
      assert |ua| == |ub|;
      assert ua == Utf16(a)[..|ua|] == ub;
      CodeUnitsInjective(a[0], b[0]);
      assert Utf16(a[1..]) == Utf16(a)[|ua|..] == Utf16(b[1..]);
      Utf16Injective(a[1..], b[1..]);
      assert a == [a[0]] + a[1..] && b == [b[0]] + b[1..];
    }
  }

  /** Lexicographic order on code-unit sequences; a proper prefix comes first. */
  predicate UnitsLess(a: seq<int>, b: seq<int>)
  {
    if a == [] then b != []
    else if b == [] then false
    else if a[0] != b[0] then a[0] < b[0]
    else UnitsLess(a[1..], b[1..])
  }

  lemma {:induction false} UnitsLessIrreflexive(a: seq<int>)
    ensures !UnitsLess(a, a)
  {
    if a != [] { UnitsLessIrreflexive(a[1..]); }
  }

  lemma {:induction false} UnitsLessTransitive(a: seq<int>, b: seq<int>, c: seq<int>)
    requires UnitsLess(a, b) && UnitsLess(b, c)
    ensures UnitsLess(a, c)
  {
    if a != [] && b != [] && c != [] && a[0] == b[0] && b[0] == c[0] {
      UnitsLessTransitive(a[1..], b[1..], c[1..]);
    }
  }

  lemma {:induction false} UnitsLessTotal(a: seq<int>, b: seq<int>)
    requires a != b
    ensures UnitsLess(a, b) || UnitsLess(b, a)
  {
    if a != [] && b != [] && a[0] == b[0] {
      assert a == [a[0]] + a[1..] && b == [b[0]] + b[1..];
      UnitsLessTotal(a[1..], b[1..]);
    }
  }

  /** JavaScript's `<` on two strings: lexicographic on their UTF-16 code units. */
  predicate StrLess(a: string, b: string)
  {
    UnitsLess(Utf16(a), Utf16(b))
  }

  lemma StrLessIrreflexive(a: string)
    ensures !StrLess(a, a)
  {
    UnitsLessIrreflexive(Utf16(a));
  }

  lemma StrLessTransitive(a: string, b: string, c: string)
    requires StrLess(a, b) && StrLess(b, c)
    ensures StrLess(a, c)
  {
    UnitsLessTransitive(Utf16(a), Utf16(b), Utf16(c));
  }

  lemma StrLessTotal(a: string, b: string)
    requires a != b
    ensures StrLess(a, b) || StrLess(b, a)
  {
    if Utf16(a) == Utf16(b) { Utf16Injective(a, b); }
    UnitsLessTotal(Utf16(a), Utf16(b));
  }

  /**
   * The code-unit order is not the code-point order: a character above
   * U+FFFF (its high surrogate is below U+DC00) sorts before any
   * character from U+E000 to U+FFFF, such as fullwidth punctuation.
   */
  lemma SupplementaryBeforeHighBmp(c: char, d: char)
    requires c as int >= 0x10000 && 0xE000 <= d as int < 0x10000
    ensures StrLess([c], [d]) && !StrLess([d], [c])
    ensures d < c
  {
    assert Utf16([c]) == CodeUnits(c) + Utf16([]);
    assert Utf16([d]) == CodeUnits(d) + Utf16([]);
  }

  function Rank(k: SortKey): nat
  {
    match k
    case KUndefined => 0
    case KNull => 1
    case KBool(_) => 2
    case KNum(_) => 3
    case KStr(_) => 4
    case KObject => 5
  }

  /**
   * `a < b` on keys of one kind: false < true, numbers numerically,
   * strings lexicographically; keys of different kinds are ordered by kind.
   */
  predicate KeyLess(a: SortKey, b: SortKey): (r: bool)
    ensures Rank(a) < Rank(b) ==> r
    ensures r ==> Rank(a) <= Rank(b)
    ensures a.KBool? && b.KBool? ==> (r <==> !a.b && b.b)
    ensures a.KNum? && b.KNum? ==> (r <==> a.n < b.n)
    ensures a.KStr? && b.KStr? ==> (r <==> StrLess(a.s, b.s))
    ensures Rank(a) == Rank(b) && (a.KUndefined? || a.KNull? || a.KObject?) ==> !r
  {
    if Rank(a) != Rank(b) then Rank(a) < Rank(b)
    else match (a, b)
      case (KBool(x), KBool(y)) => !x && y
      case (KNum(x), KNum(y)) => x < y
      case (KStr(x), KStr(y)) => StrLess(x, y)
      case _ => false
  }

  lemma KeyLessIrreflexive(a: SortKey)
    ensures !KeyLess(a, a)
  {
    if a.KStr? { StrLessIrreflexive(a.s); }
  }

  lemma KeyLessTransitive(a: SortKey, b: SortKey, c: SortKey)
    requires KeyLess(a, b) && KeyLess(b, c)
    ensures KeyLess(a, c)
  {
    if a.KStr? && b.KStr? && c.KStr? { StrLessTransitive(a.s, b.s, c.s); }
  }

  lemma KeyLessTotal(a: SortKey, b: SortKey)
    requires a != b
    ensures KeyLess(a, b) || KeyLess(b, a)
  {
    if a.KStr? && b.KStr? { StrLessTotal(a.s, b.s); }
  }

  /**
   * The comparator says `a` goes strictly before `b`: ascending by the
   * cells' keys, or descending, which is ascending with the rows swapped.
   * Rows it orders never have equal keys.
   */
  predicate Before(cfg: SortConfig, a: Row, b: Row): (r: bool)
    ensures cfg.direction == Asc ==> (r <==> KeyLess(KeyOf(a, cfg.key), KeyOf(b, cfg.key)))
    ensures cfg.direction == Desc ==> (r <==> KeyLess(KeyOf(b, cfg.key), KeyOf(a, cfg.key)))
    ensures r ==> KeyOf(a, cfg.key) != KeyOf(b, cfg.key)
  {
    KeyLessIrreflexive(KeyOf(a, cfg.key));
    if cfg.direction == Asc then KeyLess(KeyOf(a, cfg.key), KeyOf(b, cfg.key))
    else KeyLess(KeyOf(b, cfg.key), KeyOf(a, cfg.key))
  }

  /** Only rows with different keys are ordered, and never both ways. */
  lemma BeforeAsymmetric(cfg: SortConfig, a: Row, b: Row)
    requires Before(cfg, a, b)
    ensures !Before(cfg, b, a) && KeyOf(a, cfg.key) != KeyOf(b, cfg.key)
  {
    var ka, kb := KeyOf(a, cfg.key), KeyOf(b, cfg.key);
    KeyLessIrreflexive(ka);
    KeyLessIrreflexive(kb);
    if Before(cfg, b, a) {
      if cfg.direction == Asc { KeyLessTransitive(ka, kb, ka); } else { KeyLessTransitive(kb, ka, kb); }
    }
  }

  /** "Not strictly before" is transitive. */
  lemma NotBeforeTransitive(cfg: SortConfig, a: Row, b: Row, c: Row)
    requires !Before(cfg, c, b) && !Before(cfg, b, a)
    ensures !Before(cfg, c, a)
  {
    var ka, kb, kc := KeyOf(a, cfg.key), KeyOf(b, cfg.key), KeyOf(c, cfg.key);
    if Before(cfg, c, a) {
      if ka == kb {
      } else if cfg.direction == Asc {
        KeyLessTotal(ka, kb);
        KeyLessTransitive(kc, ka, kb);
      } else {
        KeyLessTotal(ka, kb);
        KeyLessTransitive(kb, ka, kc);
      }
    }
  }

  /** No row is strictly before an earlier one. */
  ghost predicate SortedBy(s: seq<Row>, cfg: SortConfig)
  {
    forall i, j :: 0 <= i < j < |s| ==> !Before(cfg, s[j], s[i])
  }

  /** The rows whose sort key is `k`, in order. */
  function WithKey(s: seq<Row>, key: string, k: SortKey): seq<Row>
  {
    if s == [] then [] else (if KeyOf(s[0], key) == k then [s[0]] else []) + WithKey(s[1..], key, k)
  }

  /** Places `x` after the rows strictly before it and ahead of the rest. */
  function Insert(cfg: SortConfig, x: Row, s: seq<Row>): (r: seq<Row>)
    ensures multiset(r) == multiset(s) + multiset{x}
  {
    if s == [] || !Before(cfg, s[0], x) then [x] + s
    else
      assert s == [s[0]] + s[1..];
      [s[0]] + Insert(cfg, x, s[1..])
  }

  /** Stable insertion sort: the order JavaScript's stable `sort` produces with this comparator. */
  function SortRows(cfg: SortConfig, s: seq<Row>): (r: seq<Row>)
    ensures multiset(r) == multiset(s)
  {
    if s == [] then []
    else
      assert s == [s[0]] + s[1..];
      Insert(cfg, s[0], SortRows(cfg, s[1..]))
  }

  lemma {:induction false} InsertSorted(cfg: SortConfig, x: Row, s: seq<Row>)
    requires SortedBy(s, cfg)
    ensures SortedBy(Insert(cfg, x, s), cfg)
  {
    if s == [] {
    } else if Before(cfg, s[0], x) {
      InsertSorted(cfg, x, s[1..]);
      InsertBehind(cfg, x, s);
    } else {
      InsertInFront(cfg, x, s);
    }
  }

  lemma InsertInFront(cfg: SortConfig, x: Row, s: seq<Row>)
    requires SortedBy(s, cfg) && s != [] && !Before(cfg, s[0], x)
    ensures SortedBy(Insert(cfg, x, s), cfg)
  {
    var r := [x] + s;
    assert Insert(cfg, x, s) == r;
    forall i, j | 0 <= i < j < |r| ensures !Before(cfg, r[j], r[i]) {
      if i == 0 && j > 1 {
        NotBeforeTransitive(cfg, x, s[0], s[j - 1]);
      }
    }
  }

  lemma InsertBehind(cfg: SortConfig, x: Row, s: seq<Row>)
    requires SortedBy(s, cfg) && s != [] && Before(cfg, s[0], x)
    requires SortedBy(Insert(cfg, x, s[1..]), cfg)
    ensures SortedBy(Insert(cfg, x, s), cfg)
  {
    var t := s[1..];
    var rest := Insert(cfg, x, t);
    assert Insert(cfg, x, s) == [s[0]] + rest;
    forall j | 0 <= j < |rest| ensures !Before(cfg, rest[j], s[0]) {
      var m := InsertedFrom(cfg, x, t, j);
      if m < 0 {
        BeforeAsymmetric(cfg, s[0], x);
      } else {
        assert s[m + 1] == rest[j];
      }
    }
  }

  /** Every entry of `Insert(cfg, x, t)` is `x` (m = -1) or the entry `t[m]`. */
  lemma InsertedFrom(cfg: SortConfig, x: Row, t: seq<Row>, j: int) returns (m: int)
    requires 0 <= j < |Insert(cfg, x, t)|
    ensures -1 <= m < |t|
    ensures m < 0 ==> Insert(cfg, x, t)[j] == x
    ensures m >= 0 ==> Insert(cfg, x, t)[j] == t[m]
  {
    var rest := Insert(cfg, x, t);
    assert rest[j] in multiset(rest);
    if rest[j] == x {
      m := -1;
    } else {
      assert rest[j] in multiset(t);
      m :| 0 <= m < |t| && t[m] == rest[j];
    }
  }

  lemma WithKeyCons(a: Row, t: seq<Row>, key: string, k: SortKey)
    ensures WithKey([a] + t, key, k) == (if KeyOf(a, key) == k then [a] else []) + WithKey(t, key, k)
  {
    assert ([a] + t)[1..] == t;
  }

  lemma {:induction false} InsertWithKey(cfg: SortConfig, x: Row, s: seq<Row>, k: SortKey)
    ensures WithKey(Insert(cfg, x, s), cfg.key, k)
         == (if KeyOf(x, cfg.key) == k then [x] else []) + WithKey(s, cfg.key, k)
  {
    if s == [] || !Before(cfg, s[0], x) {
      assert Insert(cfg, x, s) == [x] + s;
      WithKeyCons(x, s, cfg.key, k);
    } else {
      InsertWithKey(cfg, x, s[1..], k);
      InsertWithKeyBehind(cfg, x, s, k);
    }
  }

  lemma InsertWithKeyBehind(cfg: SortConfig, x: Row, s: seq<Row>, k: SortKey)
    requires s != [] && Before(cfg, s[0], x)
    requires WithKey(Insert(cfg, x, s[1..]), cfg.key, k)
          == (if KeyOf(x, cfg.key) == k then [x] else []) + WithKey(s[1..], cfg.key, k)
    ensures WithKey(Insert(cfg, x, s), cfg.key, k)
         == (if KeyOf(x, cfg.key) == k then [x] else []) + WithKey(s, cfg.key, k)
  {
    var t := s[1..];
    var i := Insert(cfg, x, t);
    var ft := WithKey(t, cfg.key, k);
    assert Insert(cfg, x, s) == [s[0]] + i;
    WithKeyCons(s[0], i, cfg.key, k);
    BeforeAsymmetric(cfg, s[0], x);
    var hs := if KeyOf(s[0], cfg.key) == k then [s[0]] else [];
    var hx := if KeyOf(x, cfg.key) == k then [x] else [];
    assert WithKey(Insert(cfg, x, s), cfg.key, k) == hs + (hx + ft);
    assert WithKey(s, cfg.key, k) == hs + ft;
    assert hs == [] || hx == [];
    if hs == [] {
      assert hs + (hx + ft) == hx + ft;
      assert hs + ft == ft;
    } else {
      assert hx + ft == ft;
      assert hx + (hs + ft) == hs + ft;
    }
  }

  lemma {:induction false} SortRowsSorted(cfg: SortConfig, s: seq<Row>)
    ensures SortedBy(SortRows(cfg, s), cfg)
  {
    if s != [] {
      SortRowsSorted(cfg, s[1..]);
      InsertSorted(cfg, s[0], SortRows(cfg, s[1..]));
    }
  }

  lemma {:induction false} SortRowsStable(cfg: SortConfig, s: seq<Row>, k: SortKey)
    ensures WithKey(SortRows(cfg, s), cfg.key, k) == WithKey(s, cfg.key, k)
  {
    if s != [] {
      SortRowsStable(cfg, s[1..], k);
      InsertWithKey(cfg, s[0], SortRows(cfg, s[1..]), k);
    }
  }

  /**
   * sortedRows: with no sort set, the rows as stored; otherwise a
   * rearrangement of them in which no row is strictly before an earlier
   * one and rows with equal keys keep their stored order. The table's own
   * rows are an input and are not reordered.
   */
  function SortedRows(rows: seq<Row>, config: Option<SortConfig>): (r: seq<Row>)
    ensures config.None? ==> r == rows
    ensures multiset(r) == multiset(rows)
    ensures config.Some? ==> SortedBy(r, config.value)
    ensures config.Some? ==> forall k :: WithKey(r, config.value.key, k) == WithKey(rows, config.value.key, k)
  {
    match config
    case None => rows
    case Some(cfg) =>
      SortRowsSorted(cfg, rows);
      forall k ensures WithKey(SortRows(cfg, rows), cfg.key, k) == WithKey(rows, cfg.key, k) {
        SortRowsStable(cfg, rows, k);
      }
      SortRows(cfg, rows)
  }
}
