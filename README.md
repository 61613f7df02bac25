# nocodb-web-portal: a verified model of the table builder's data operations

This project models the data side of a no-code table builder. Users
define tables of typed columns, fill them with rows of loosely typed
values, and view them as a grid or as cards. The model covers:

- **Grid view** (`src/components/DataTable.tsx`):
  - adding a column and deleting it, with its key stripped from every row;
  - adding a row with per-type defaults, and deleting it;
  - the single-cell edit, with its type-directed coercion;
  - the sort toggle and the sorted view.
- **Card view** (`src/components/CardView.tsx`):
  - adding a row from entered values with the card view's own defaults;
  - whole-row edit and save, and row deletion;
  - the number input and the card title.
- **Table hook** (`src/hooks/use-tables.ts`):
  - the store the operations are routed to;
  - the local-storage branches that shallow-merge tables and rows.
- **Application shell** (`src/App.tsx`):
  - the active-table lookup;
  - creating, deleting and replacing tables;
  - the export and its file name.
- **Server row store** (`server/db/database.js`):
  - `createRow`, `updateRow` and `deleteRow` over a map from row id to table id and data;
  - `batchUpdateRows`, which applies a list of operations in order, collects successes and errors, and never stops at an error.

Modules:

| file | module | contents |
|---|---|---|
| seqs.dfy | `Seqs` | `Option`, an order-keeping `Filter` and its lemmas, `FirstIndex` (the position `Array.prototype.find` stops at) |
| types.dfy | `Types` | columns, values, rows (maps from key to value, `"id"` included), tables; the `reduce` that builds a new row's fields; `rows.filter(row => row.id !== id)` |
| text.dfy | `Text` | JavaScript `trim`, `\s`, `toLowerCase` and `replace(/\s+/g, '-')` |
| coerce.dfy | `Coerce` | truthiness, `String(v)`, `parseFloat(t) \|\| 0` |
| datatable.dfy | `DataTable` | the grid view's operations and the stable sort |
| cardview.dfy | `CardView` | the card view's operations |
| tableshook.dfy | `TablesHook` | branch selection and the local-storage branches |
| app.dfy | `App` | the table list, the active table and the export |
| database.dfy | `Database` | the `RowStore` class and the batch specification |

The UI code is pure, so it is modelled as functions from the old table
(or list of tables) to the new one. The server store changes in place.
It is modelled as a class `RowStore` whose `rows` map its methods
reassign. `BatchUpdateRows` is a loop proved against the functional
specification `Batch`, and the properties of the batch are lemmas about
`Batch`.

Some inputs come from outside the code and are parameters of the model:

- fresh ids (`Date.now().toString()`, `uuidv4()`);
- today's date;
- `parseFloat`, as `NumberParser`, where None stands for NaN;
- `String` of a number, as `NumberPrinter`;
- the way SQLite binds an id value to the INSERT, as `Binder`.

Three facts about the server store shape the batch model:

- The server's `updateRow` replaces the stored data wholesale and does not merge.
- An update or delete of an id that is not stored changes nothing, and the batch reports it as a success (`Database.UpdatesOfMissingRows`).
- A create fails with SQLite's constraint message when its id is already stored. It fails with the foreign-key message when its table id names no stored table: the bundled SQLite enforces the `FOREIGN KEY (table_id)` of the `rows` schema (`Database.UnknownTableAddsNoRow`).

## Model

| member | source | states |
|---|---|---|
| Seqs.FirstIndex | src/App.tsx:23 | the index found is the first whose element satisfies the predicate; None exactly when no element does |
| Types.FieldsFor | src/components/DataTable.tsx:65-68 | the reduce over the columns yields exactly the column ids as keys, each mapped to the fill of the last column with that id |
| Types.FieldsForUnique | src/components/CardView.tsx:58-80 | with unique column ids every column's key holds that column's own fill |
| Types.WithoutId | src/components/DataTable.tsx:80 | exactly the rows without that id are kept, each as often as before, in order; nothing changes when no row has the id |
| Text.Trim | src/components/DataTable.tsx:32 | the result is no longer than the input and neither starts nor ends with white space |
| Text.TrimSpec | src/App.tsx:33 | the trimmed name sits inside the input with only white space before and after it |
| Text.TrimEmptyIffAllSpace | src/components/DataTable.tsx:25 | a name trims to '' exactly when it is all white space |
| Text.TrimIdempotent | src/App.tsx:33 | trimming a trimmed name changes nothing |
| Text.ToLower | src/App.tsx:77 | same length, each character lowered, no upper-case letter left, white space exactly where it was |
| Text.ToLowerIdempotent | src/App.tsx:77 | lowering twice is lowering once |
| Text.ReplaceSpaceRuns | src/App.tsx:77 | the result is no longer than the input, has no white space, and equals the input when the input has none |
| Text.ReplaceSpaceRunsSplit | src/App.tsx:77 | a maximal white-space run between two words becomes exactly one '-' between their replacements |
| Text.ReplaceSpaceRunsIdempotent | src/App.tsx:77 | replacing runs in an already replaced name changes nothing |
| Coerce.CellAt | src/components/CardView.tsx:361 | `row[key]` is present exactly when the key is, with that key's value |
| Coerce.ParseOrZero | src/components/DataTable.tsx:97 | NaN gives 0, any parsed number is kept |
| DataTable.KeptOptions | src/components/DataTable.tsx:34 | exactly the options that are not blank are kept, untrimmed, each as often, in order |
| DataTable.AddColumn | src/components/DataTable.tsx:24-40 | a blank name leaves the table as is; otherwise one column is appended with the fresh id, trimmed non-empty name, chosen type, options only for select; earlier columns and all rows stay |
| DataTable.DeleteColumn | src/components/DataTable.tsx:47-58 | every column with the id goes, the rest keep their order; every row loses that key only, row count and order stay |
| DataTable.AddThenDeleteColumn | src/components/DataTable.tsx:24-58 | adding a column under a fresh id and deleting it gives back the columns, and the rows when no row had that key |
| DataTable.AddRow | src/components/DataTable.tsx:62-74 | one row appended whose keys are "id" and the column ids; boolean columns false, date columns today, every other type '' |
| DataTable.GridDefault | src/components/DataTable.tsx:66 | only a date cell (with a non-empty date) is truthy; number and file cells get '', not a value of their type; the others conform to their type |
| DataTable.DeleteRow | src/components/DataTable.tsx:77-82 | exactly the rows with that id go, the others keep their multiplicity and order |
| DataTable.AddThenDeleteRow | src/components/DataTable.tsx:62-82 | a row added under an unused id is exactly what deleting that id removes |
| DataTable.FindColumn | src/components/DataTable.tsx:92 | the first column with that id; None exactly when no column has it |
| DataTable.EditText | src/components/DataTable.tsx:84-87 | a falsy value opens as '', a truthy one as its `String` text, a string as itself |
| DataTable.CoerceEdit | src/components/DataTable.tsx:95-100 | number columns get the parsed number or 0, boolean columns true exactly for the text 'true', others the text |
| DataTable.EditTextRoundTrip | src/components/DataTable.tsx:84-100 | the editor's opening text coerced back gives the value, for every value of the column's type that `parseFloat` reads back |
| DataTable.SaveEdit | src/components/DataTable.tsx:89-108 | no edit or an unknown column changes nothing; otherwise each row with the id gets the coerced value in that cell only |
| DataTable.SaveUnchangedEditIsNoOp | src/components/DataTable.tsx:84-108 | with unique row ids, opening a non-file cell that holds a value of its column's type (a number `parseFloat` reads back) and saving the untouched text leaves the table unchanged |
| DataTable.SaveUntouchedEmptyNumberCell | src/components/DataTable.tsx:66-97 | the exception: a number cell still holding the grid's default '' is saved untouched as 0, so the table changes |
| DataTable.HandleSort | src/components/DataTable.tsx:118-124 | the key is the clicked column; descending exactly when that column was ascending |
| DataTable.HandleSortToggles | src/components/DataTable.tsx:118-124 | clicking the same header again always flips the direction |
| DataTable.CodeUnits | src/components/DataTable.tsx:132-133 | one or two UTF-16 code units per character: a single non-high-surrogate unit below U+10000, otherwise a high then a low surrogate |
| DataTable.Utf16 | src/components/DataTable.tsx:132-133 | one code unit per character exactly when no character lies above U+FFFF, and never fewer units than characters |
| DataTable.Utf16Injective | src/components/DataTable.tsx:132-133 | different strings have different UTF-16 encodings |
| DataTable.UnitsLessTransitive | src/components/DataTable.tsx:132-133 | the lexicographic order on code units is transitive |
| DataTable.UnitsLessTotal | src/components/DataTable.tsx:132-133 | of two different code-unit sequences one is below the other |
| DataTable.SupplementaryBeforeHighBmp | src/components/DataTable.tsx:132-133 | string `<` follows code units, not code points: a character above U+FFFF sorts before one in U+E000–U+FFFF although its code point is larger |
| DataTable.StrLessTransitive | src/components/DataTable.tsx:132-133 | string `<` (lexicographic on UTF-16 code units) is transitive |
| DataTable.StrLessTotal | src/components/DataTable.tsx:132-133 | of two different strings one is `<` the other |
| DataTable.KeyOf | src/components/DataTable.tsx:129-130 | `a[key]` is undefined exactly when the key is absent, an object exactly for a file record, otherwise the cell's kind with its payload |
| DataTable.KeyLess | src/components/DataTable.tsx:132-133 | false before true, numbers numerically, strings by `StrLess`; undefined, null and objects never below their own kind; different kinds by kind |
| DataTable.Before | src/components/DataTable.tsx:128-135 | ascending by the cells' keys, descending as ascending with the rows swapped; rows it orders never have equal keys |
| DataTable.KeyLessTransitive | src/components/DataTable.tsx:132-133 | the modelled comparison of cell values is transitive |
| DataTable.KeyLessTotal | src/components/DataTable.tsx:132-133 | of two different cell keys one is below the other |
| DataTable.BeforeAsymmetric | src/components/DataTable.tsx:128-135 | the comparator never puts two rows each before the other, in either direction |
| DataTable.NotBeforeTransitive | src/components/DataTable.tsx:128-135 | "not before" is transitive, so the comparator is consistent |
| DataTable.InsertSorted | src/components/DataTable.tsx:128-135 | inserting a row into sorted rows keeps them sorted |
| DataTable.SortRowsSorted | src/components/DataTable.tsx:126-136 | the sort's output is sorted under the comparator |
| DataTable.SortRowsStable | src/components/DataTable.tsx:126-136 | rows with equal sort keys keep their stored order |
| DataTable.SortedRows | src/components/DataTable.tsx:126-136 | no sort gives the rows as stored; otherwise a permutation, sorted, stable |
| CardView.AddNewRow | src/components/CardView.tsx:55-86 | one row appended whose keys are "id" and the column ids; each column holds the entered value, else the card default; earlier rows stay |
| CardView.CardDefault | src/components/CardView.tsx:62-77 | the card default always conforms to the column's type, and only a date default is truthy |
| CardView.NewRowCell | src/components/CardView.tsx:58-80 | an entered value wins; otherwise boolean false, date today, number 0, file null, every other type '' |
| CardView.StartEditRow | src/components/CardView.tsx:24-27 | the buffer is a copy of the row under the row's id |
| CardView.SaveEdit | src/components/CardView.tsx:29-36 | no edit (or the falsy id '') changes nothing; otherwise rows with the id are replaced wholesale, the others stay |
| CardView.StartThenSaveIsNoOp | src/components/CardView.tsx:24-36 | starting an edit and saving it untouched leaves the table unchanged |
| CardView.DeleteRow | src/components/CardView.tsx:47-51 | exactly the rows with that id go, the others keep their multiplicity and order |
| CardView.NumberInput | src/components/CardView.tsx:145 | the input always yields a number: the parsed one, or 0 for NaN |
| CardView.CardTitle | src/components/CardView.tsx:361 | a falsy first-column value gives '未命名', a truthy one its text; with no columns the key "undefined" is read |
| TablesHook.StoreFor | src/hooks/use-tables.ts:9-11 | the two flags are complements, so every mutation goes to the remote API and the local branches never run |
| TablesHook.Merge | src/hooks/use-tables.ts:126 | each field of the patch that is present overrides, absent ones keep the table's |
| TablesHook.MergeCompose | src/hooks/use-tables.ts:125-127 | two merges are one merge of the combined patch; the empty patch changes nothing; merging twice is merging once |
| TablesHook.LocalCreateTable | src/hooks/use-tables.ts:98-103 | one table appended with the fresh id, the given name and columns, and no rows |
| TablesHook.LocalUpdateTable | src/hooks/use-tables.ts:125-127 | every table with the id is merged with the patch, the others stay |
| TablesHook.LocalDeleteTable | src/hooks/use-tables.ts:148 | exactly the tables with the id go, the rest keep their order |
| TablesHook.CreateThenDeleteTable | src/hooks/use-tables.ts:98-148 | creating a table under an unused id and deleting that id gives back the tables |
| TablesHook.LocalAddRow | src/hooks/use-tables.ts:169-181 | the table with the id gets the row data appended with the fresh id overriding its own; other tables stay |
| TablesHook.LocalUpdateRow | src/hooks/use-tables.ts:202-213 | in the table with the id, rows with the row id get the data's keys written over theirs and keep the rest |
| TablesHook.UpdateUnknownRowIsNoOp | src/hooks/use-tables.ts:202-213 | updating a row id no row carries changes nothing |
| TablesHook.LocalDeleteRow | src/hooks/use-tables.ts:234-243 | only the table with the id loses exactly the rows with the row id; the others keep their multiplicity and order |
| TablesHook.AddThenDeleteRow | src/hooks/use-tables.ts:169-243 | adding a row under an unused id and deleting it gives back the tables |
| App.ActiveTable | src/App.tsx:23 | the first table whose id is the active id, or none when no table has it |
| App.CreateTable | src/App.tsx:25-42 | a blank name changes nothing; otherwise a table with the trimmed name, the two default columns and no rows is appended and made active |
| App.CreatedTableIsActive | src/App.tsx:31-42 | after creating under an unused id, the active table is the new one, with a non-empty name and no rows |
| App.DeleteTable | src/App.tsx:48-52 | exactly the tables with the id go, in order; the active id is cleared exactly when it was that id |
| App.DeletedTableIsNotActive | src/App.tsx:48-52 | after deleting, no active table carries the deleted id |
| App.UpdateTable | src/App.tsx:56-62 | every table with the id is replaced wholesale; count, order and other tables stay |
| App.UpdateActiveTable | src/App.tsx:56-62 | replacing the active table makes the replacement the active table |
| App.ExportFileName | src/App.tsx:77 | the name lowercased with each white-space run made one '-', then '.json'; no white space, no upper-case letter |
| App.LowerSlug | src/App.tsx:77 | replacing white-space runs adds no upper-case letter |
| App.ExportData | src/App.tsx:64-77 | nothing without an active table; otherwise its name, columns and rows under its file name |
| Database.InsertRow | server/db/database.js:185-196 | the INSERT succeeds exactly when the id binds to a key not stored and the table id is a stored table; an unbindable id fails with the bind error, a duplicate with the unique-constraint message, an unknown table with the foreign-key message, all leaving the store |
| Database.UpdateData | server/db/database.js:198-208 | the row with the id gets the new data wholesale and keeps its table; other rows and the key set stay |
| Database.RemoveAll | server/db/database.js:255-259 | exactly the listed ids go, every other row stays unchanged |
| Database.DeleteResults | server/db/database.js:256-259 | one delete success per listed id, in order, stored or not |
| Database.CreateId | server/db/database.js:237 | the row data's own id when truthy, else the fresh uuid; the id is truthy unless the uuid is empty |
| Database.Apply | server/db/database.js:232-268 | one operation only appends to the lists, by exactly its entries; an operation lacking its data changes nothing |
| Database.ApplyCases | server/db/database.js:232-268 | unknown type: one error, store unchanged; create: the INSERT's outcome under the given or fresh id; update: wholesale update and one success; delete: the id, or each listed id, removed with one success each |
| Database.Batch | server/db/database.js:226-270 | results and errors only grow, by exactly the entries the operations add |
| Database.RowStore.CreateRow | server/db/database.js:185-196 | the store and the error are those of the INSERT against the store's table ids |
| Database.RowStore.UpdateRow | server/db/database.js:198-208 | the store becomes the wholesale update of the row with that id |
| Database.RowStore.DeleteRow | server/db/database.js:212-223 | the row with that id is removed, if there was one |
| Database.RowStore.DeleteEach | server/db/database.js:255-259 | the listed ids are removed and one success per id is pushed, in order |
| Database.RowStore.Run | server/db/database.js:232-268 | one pass of the loop moves the store and both lists as the batch specification's step |
| Database.RowStore.BatchUpdateRows | server/db/database.js:226-279 | the store, results and errors at the end are those of the batch specification over all operations |
| Database.BatchAppend | server/db/database.js:232 | operations run in order: a batch of two lists is the second run on the outcome of the first |
| Database.ErrorsExplained | server/db/database.js:263-268 | the only errors are failed creates (duplicate id, unbindable id, unknown table) and unknown types; updates and deletes never fail |
| Database.UnknownTableAddsNoRow | server/db/database.js:236-240 | under a table id that names no stored table, a batch adds no row |
| Database.UntouchedRowsStay | server/db/database.js:226-270 | a row that no operation names is present afterwards exactly when before, with the same table and data |
| Database.UpdatesOfMissingRows | server/db/database.js:244-248 | updates of ids not stored change nothing and record no error, yet each reports a success, in order |
| Database.CreateThenDeleteRestores | server/db/database.js:236-254 | a create under an unstored key followed by a delete of it gives back the store |
| Database.CreateWithOwnId | server/db/database.js:236-240 | a create carrying a non-empty unstored string id stores its data unchanged under that id and this table |
| Database.CreateWithFreshId | server/db/database.js:236-240 | a create without a truthy id stores the data under the fresh uuid, written into its "id" |

## Left out

- Rendering, dialogs, toasts, file uploads, drag and drop and `TableManager.tsx`: these are UI with no data logic.
- The remote branches of `use-tables.ts` (Supabase and the backend API), `loadTables`, and `localStorage`/`useKV` persistence: these are I/O. `TablesHook.StoreFor` shows the local branches are unreachable; they are modelled anyway.
- SQLite itself: the schema, the transaction wrapper, `created_at` ordering, the `ON DELETE CASCADE` of the foreign key (table deletion is not modelled), and the connection. The `rows` table is a map from id to (table id, data); the `tables` table enters only as the set of its ids (`RowStore.tableIds`), which the foreign key checks on insert.
- The Express routes in `server/routes/` and `server/server.js`: HTTP plumbing, not part of this model.
- `Database.RowStore.CreateRow`: requires the row data to carry an "id". SQLite would store a row without one under a NULL key, but `batchUpdateRows`, the only caller modelled, always sets one.
- `Database.Operation`: the `rowId` field uses "" for absent, which is also the only falsy string. Row ids passed to update and delete are strings; a non-string `rowId` or `rowIds` element is not modelled.
- `Database.Binder`: how SQLite binds a truthy non-string id (a number, `true`, an object) is a parameter. The model does not say which key or error SQLite produces for it.
- `Database.Success`: the constant `success: true` field of each result is not stored.
- An operation without a `type` is modelled as one whose type string names no case. It gets the same "Unknown operation type" error, but its `operation` field holds that string instead of `undefined`.
- `Text.ToLower`: lowers ASCII letters only; JavaScript's full Unicode case mapping is not modelled.
- Numbers are mathematical reals. Floating-point rounding, NaN as a stored value, and infinities are not modelled. `parseFloat` and `String(n)` are parameters, not implementations.
- `DataTable.KeyLess`: JavaScript's `<` between values of different kinds (a number against a string, `undefined` against anything) is not a consistent order. The model orders such pairs by kind (undefined, null, boolean, number, string, object), so the sort is well defined. Booleans, numbers and strings compare as JavaScript does: strings by UTF-16 code units.
- `DataTable.SortedRows`: the grid puts '' into new number cells, and JavaScript compares '' against a number as 0, so -1 < '' < 5. The model ranks every number before every string, so such cells sort after all numbers in ascending order.
- `DataTable.SortedRows`: a file column holds `null` (the card default) and file records. JavaScript compares `null` with an object as 0 against NaN and two records as the same "[object Object]" text, so every pair compares equal and the stable sort keeps the stored order. The model ranks null before object, so empty cells move ahead of file cells.
- Values are strings, numbers, booleans, null or file records. Arrays and other objects in cells are not modelled.
- Fresh ids (`Date.now()`, `uuidv4()`) and today's date are parameters. Nothing in the model makes them unique; lemmas that need an unused id require one.
