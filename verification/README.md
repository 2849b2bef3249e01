# Ideas board: a Dafny model of the board state machine

The Ideas Board is a single-page brainstorming tool. Sticky-note *ideas* sit in
*columns*: a permanent sidebar column keyed `unassigned`, plus the
*quadrants*, which are shown in the order `columnOrder` gives. A fresh board has
the numbered quadrants `q1`..`qn`; a quadrant added later is keyed `col-<ms>`.
Every user action swaps the whole `BoardData` snapshot for a new one. This
project models those transitions as pure functions from one `Board` to the next:

- starting a board with `n` quadrants;
- adding an idea;
- adding and removing a quadrant;
- the drag-and-drop reorder;
- renaming a column;
- the row filter of the CSV import;
- the row flattening of the spreadsheet export.

The proofs are built around the board invariant `BoardInvariant.Valid`:

- the sidebar exists and is never in `columnOrder`;
- `columnOrder` has no repeats and names exactly the other columns;
- every column and idea is filed under its own id;
- the multiset of ids held by the sidebar and the listed quadrants equals the set of idea ids.

`BoardInvariant.ValidIffPointwise` shows that the last condition is the same as
the column-by-column reading: every id in a column is an idea, no column lists an
id twice, no id is in two columns, and every idea is in some column.

Modules:

| file | module | models |
|---|---|---|
| types.dfy | `Types` | `Idea`, `Column`, `BoardData`, the two palettes |
| text.dfy | `Text` | `String.prototype.trim` blankness, decimal rendering for `q1`, `q2`, ... |
| splice.dfy | `Splice` | `splice(i, 1)`, `splice(i, 0, x)` and `filter` on immutable sequences |
| invariant.dfy | `BoardInvariant` | the board invariant and its bookkeeping lemmas |
| store.dfy | `Store` | `startBoard`, `addIdea`, `addColumn`, `removeColumn`, `updateColumnTitle` |
| reorder.dfy | `Reorder` | `onDragEnd` |
| csv_import.dfy | `CsvImport` | the per-row loop of `handleCsvUpload` |
| excel_export.dfy | `ExcelExport` | the `flatMap` of `exportToExcel` |

Values the handlers draw from the environment are parameters:

- the id of a new idea (`idea-<ms>-<suffix>` in the app: a millisecond clock reading and a random base-36 suffix of up to 9 characters);
- the id of a new quadrant (`col-<ms>` in the app: a millisecond clock reading and nothing else);
- the colour of a new idea (a random palette entry);
- the answer to the confirmation dialog (a `bool`).

A fresh id is required not to be a key yet. A colour is required to be one of
`STICKY_COLORS`.

## Model

| member | source | states |
|---|---|---|
| Types.QuadrantBg | App.tsx:49 | a quadrant background is an entry of `COLUMN_BG_COLORS` followed by `/50` |
| Text.TrimEmptyIffBlank | App.tsx:62 | `trim()` gives the empty string exactly when every character is ECMAScript whitespace, so `addIdea` ignores exactly the blank texts |
| Text.Trim | App.tsx:62 | `trim()`'s result neither starts nor ends with whitespace and is no longer than the input |
| Text.TrimStripsOnlyWhitespace | App.tsx:62 | `trim()`'s result is a stretch of the input, and everything before and after that stretch is whitespace |
| Text.NatToStringInjective | App.tsx:43 | different numbers render as different decimal strings |
| Store.QuadrantId | App.tsx:43 | the id `q${i}` is `q` followed by decimal digits only, at least two of them from `i = 10` on |
| Store.QuadrantIdInjective | App.tsx:43 | the ids `q${i}` of different quadrants differ, and none is `unassigned` |
| Store.QuadrantOrder | App.tsx:40-44 | the loop yields the ids `q1`..`qn` in order, without repeats and without `unassigned` |
| Store.QuadrantColumns | App.tsx:32-50 | the sidebar plus, for the quadrant at each position, an untitled, empty column under its own id with the palette background for that position, and no other column |
| Store.FreshQuadrants | App.tsx:32-51 | the setup loop's result: ids `q1`..`qn` in order, each keyed to an untitled, empty column with the palette background for its position, next to the empty sidebar, and no other column; the order is repeat-free and leaves out the sidebar |
| Store.StartBoard | App.tsx:31-57 | the board has no ideas, an empty sidebar, and quadrants `q1`..`qn` in order; quadrant `i` is untitled and empty, with background entry `(i-1) mod 4`; the board is valid |
| Store.PushIdea | App.tsx:67-79 | the new idea is stored under its id and that id goes to the front of the sidebar; all other ideas, columns and the order are unchanged |
| Store.AddIdea | App.tsx:61-79 | text made of whitespace only leaves the board unchanged; any other text adds the idea with the given id, text and colour as `Store.PushIdea` describes |
| Store.AddIdeaPreservesValid | App.tsx:69-79 | adding an idea keeps the board valid |
| Store.SidebarPushValid | App.tsx:71-77 | storing a new idea and pushing its id onto the sidebar keeps the invariant |
| Store.AddColumn | App.tsx:83-98 | an empty, untitled quadrant is appended under the fresh id, with the palette background for its position; nothing else changes |
| Store.AddColumnPreservesValid | App.tsx:94-98 | adding a quadrant keeps the board valid |
| Store.RemovalProceeds | App.tsx:101-110 | a removal is refused exactly when at most one quadrant is left, or when the quadrant holds ideas and the user does not confirm; a removal that goes ahead without confirmation is of an empty quadrant |
| Store.RemoveColumn | App.tsx:101-129 | the removal is refused with one quadrant or fewer, or for a non-empty quadrant without confirmation; otherwise the quadrant disappears from the columns and the order, its ids are appended to the sidebar in order, and the rest is unchanged; the remaining quadrants keep their order (on a repeat-free order the new order is the old one with that position spliced out) |
| Store.RemoveColumnKeepsPlacedIds | App.tsx:112-129 | a removal that goes ahead keeps the board well shaped and keeps the multiset of placed ids |
| Store.RemoveColumnPreservesValid | App.tsx:101-129 | removing a quadrant, refused or not, keeps the board valid |
| Store.RemoveColumnUndoesAddColumn | App.tsx:83-129 | removing a just-added quadrant restores the original board whenever a quadrant existed before |
| Store.UpdateColumnTitle | App.tsx:222-230 | only the title of the named column changes |
| Store.UpdateColumnTitlePreservesValid | App.tsx:222-230 | renaming keeps the board valid |
| Store.UpdateColumnTitleLastWins | App.tsx:222-230 | of two renames only the second counts; renaming back restores the board |
| Splice.RemoveAt | App.tsx:143 | `splice(i, 1)` drops exactly the element at `i` and shifts the rest down; it does nothing past the end |
| Splice.InsertAt | App.tsx:144 | `splice(i, 0, x)` places `x` at `min(i, length)` and shifts the rest up |
| Splice.Clamp | App.tsx:144 | `splice` starts at the given index when it lies within the list and at the end of the list otherwise |
| Splice.Without | App.tsx:113 | `filter(id => id !== x)` keeps every other element, removes every copy of `x`, and keeps a repeat-free list repeat-free |
| Splice.RemoveInserted | App.tsx:142-144 | removing an inserted element at its position gives the list back |
| Splice.InsertRemoved | App.tsx:154-155 | putting a removed element back at its index gives the list back |
| Splice.WithoutConcat | App.tsx:113 | `filter` works piece by piece, so the elements it keeps stay in their original order |
| Splice.WithoutSingleton | App.tsx:113 | `filter` keeps a single element exactly when it differs from the removed one |
| Splice.WithoutIsRemoveAt | App.tsx:113 | on a repeat-free list, filtering out the element at `i` is the same as splicing it out |
| Reorder.OnDragEnd | App.tsx:132-170 | a drop outside every column, or onto the pick-up position, changes nothing; a drop never changes the ideas or the quadrant order |
| Reorder.IsMove | App.tsx:135-136 | a drop changes something exactly when it has a destination and that destination, as a (column, index) location, differs from the pick-up location |
| Reorder.OnDragEndWithinColumn | App.tsx:141-151 | a move within one list: the dragged id lands at the clamped destination, the other elements keep their order, other columns are untouched, and a consistent drop is a permutation |
| Reorder.OnDragEndAcrossColumns | App.tsx:154-169 | a move between lists: the source loses the element at the source index, and the destination gains the dragged id at the clamped destination index; each list keeps its other elements in order, and the other columns are untouched |
| Reorder.OnDragEndPreservesValid | App.tsx:132-170 | a drop whose reported id is the one at the pick-up position keeps the board valid |
| Reorder.InconsistentDragBreaksInvariant | App.tsx:154-169 | on the valid two-idea example board (`a`, `b` in the sidebar, empty `q1`), a drop onto `q1` that reports `a` while picking up `b` leaves `a` in both the sidebar and `q1`, `b` in no column, and the board invalid |
| Reorder.InconsistentDragWithinColumn | App.tsx:141-151 | on the same board, a move inside the sidebar that reports `a` while picking up `b` leaves the sidebar holding `a` twice, `b` in no column, and the board invalid |
| CsvImport.HasFirstField | App.tsx:180 | the guard holds exactly when `row[0]` is truthy in JavaScript: the row has a first field and that field is not the empty string |
| CsvImport.Imports | App.tsx:180 | a row becomes an idea exactly when `row[0]` is truthy and is not made of whitespace only |
| CsvImport.ImportsIffTrimmed | App.tsx:62 | a row becomes an idea exactly when `row[0]` is truthy and `row[0].trim()` is non-empty, the add-idea handler's own test |
| CsvImport.ImportedIds | App.tsx:179-181 | for distinct ids, a row's id is among the imported ones exactly when the row passes the guard and is not blank; the imported ids are among the given ones and repeat-free |
| CsvImport.ImportedIdsAppend | App.tsx:179-181 | rows are filtered in file order: the ids imported from two consecutive parts of a file are those of the first part followed by those of the second |
| CsvImport.ImportedIdsSingle | App.tsx:180 | a single row contributes its id exactly when it is imported |
| CsvImport.ImportRows | App.tsx:176-184 | the imported ideas' ids go in front of the sidebar, in reverse file order; the other columns and the order are unchanged |
| CsvImport.ImportRowsKeys | App.tsx:179-181 | after the import, the idea ids are the previous ones plus the imported ones |
| CsvImport.ImportRowsKeepsIdeas | App.tsx:179-181 | existing ideas are kept as they were |
| CsvImport.ImportRowsIdeas | App.tsx:179-181 | each imported row becomes an idea carrying its first field as text and its given colour |
| CsvImport.ImportRowsCount | App.tsx:179-181 | the number of ideas grows by exactly the number of imported rows |
| CsvImport.ImportRowsPreservesValid | App.tsx:176-184 | the import keeps the board valid |
| CsvImport.ThreeRowImportedIds | App.tsx:179-181 | of the rows `Idea A`, an empty row and `Idea B`, the first and the last are imported |
| CsvImport.ThreeRowExampleSidebar | App.tsx:179-181 | that file puts `Idea B` ahead of `Idea A` at the front of the sidebar |
| CsvImport.ThreeRowExampleCount | App.tsx:179-181 | that file creates exactly two ideas, and the skipped row's id is not used |
| CsvImport.ThreeRowExampleIdeas | App.tsx:179-181 | the two ideas carry the texts `Idea A` and `Idea B` |
| ExcelExport.QuadrantLabel | App.tsx:191 | an untitled quadrant is exported as `Unnamed Quadrant`; a titled one is exported under its title |
| ExcelExport.ColumnRows | App.tsx:189-193 | a quadrant yields one record per id, in list order, each with its label and that idea's text |
| ExcelExport.RowsFor | App.tsx:188-194 | no exported record has an empty quadrant label |
| ExcelExport.ExportRows | App.tsx:188-194 | the export of a board has one record per id its quadrants hold, and every record has a non-empty quadrant label |
| ExcelExport.RowsForCount | App.tsx:188-194 | the export has one record per id the listed quadrants hold |
| ExcelExport.RowsForAppend | App.tsx:188-194 | the records follow the quadrant order: exporting two runs of quadrants is exporting each in turn |
| ExcelExport.RowsForFrame | App.tsx:188-194 | the export reads only the listed quadrants and the ideas they hold |
| ExcelExport.ValidIsExportable | App.tsx:189-192 | on a valid board every lookup the export makes succeeds |
| ExcelExport.ExportCount | App.tsx:187-194 | on a valid board the export has one record per idea outside the sidebar |
| ExcelExport.AddIdeaKeepsExport | App.tsx:61-79 | adding an idea does not change the export, because new ideas go to the sidebar |
| ExcelExport.SingleQuadrantExample | App.tsx:188-194 | a `Risks` quadrant holding `Legacy code` exports as the single record `Risks / Legacy code` |
| BoardInvariant.ValidIffPointwise | types.ts:15-19 | the counting invariant is equivalent to: every listed id is an idea, no list repeats, no id is in two columns, and every idea is in a column |
| BoardInvariant.PlacedReplace | types.ts:15-19 | replacing one column swaps its ids for the new column's ids in the placed multiset |

## Left out

- Rendering, the setup screen, the `isSetup` / `numSubsections` / `newIdeaText` UI state and `resetToSetup`: they are presentation, not board data. `resetToSetup` only sets `isSetup`.
- PNG export (`toPng`, the download link): it is DOM and I/O.
- Workbook writing in `exportToExcel` (`json_to_sheet`, the sheet name, the file name): it is I/O. Only the row flattening is modelled.
- The file picker and `Papa.parse` in `handleCsvUpload`: the parsed rows are the input of `CsvImport.ImportRows`.
- `Date.now`, `Math.random`, `alert` and `window.confirm`: they become the id, colour and `confirmed` parameters. The message texts are not modelled.
- React's deferred `setData(prev => ...)`: the model applies each update to one snapshot. Where a handler reads `data` from its closure, the model uses the same snapshot. That covers `addColumn`'s `data.columnOrder.length` for the background (App.tsx:85), `removeColumn`'s `data.columnOrder.length` check (App.tsx:102) and its `column` (App.tsx:107), and `onDragEnd`'s `start` and `finish` (App.tsx:138-139). It does not model a stale closure seeing an older board.
- Store.UpdateColumnTitle: requires the column to exist. For an unknown id the app would create a column object with only a `title` field. Such a column lies outside the datatype.
- Store.AddColumn: requires the new quadrant's id to be fresh. The app's id `col-<ms>` is a clock reading alone, so two quadrants added within one millisecond would get the same id; the app would then overwrite the first quadrant and list the id twice in `columnOrder`. That collision is not modelled.
- Store.RemoveColumn: requires the column to exist, even when the removal is refused for having one quadrant or fewer. The app reads `column.ideaIds` of an unknown id and fails there.
- Store.RemoveColumnPreservesValid: assumes the removed column is not the sidebar. `Store.RemoveColumn` models removing `unassigned` exactly as written, which deletes the sidebar. The UI offers no way to do that.
- Reorder.OnDragEnd: requires both named columns to exist when the drop is a move. The app would fail reading `ideaIds` of `undefined`.
- Reorder.OnDragEnd: `start === finish` is modelled as equal column keys. Distinct keys hold distinct column objects.
- Reorder.OnDragEndPreservesValid: requires the reported id to be the one at the pick-up position. The app does not check this. `Reorder.InconsistentDragBreaksInvariant` and `Reorder.InconsistentDragWithinColumn` show, on one example board, what happens otherwise; no general statement about inconsistent drops is proved.
- ExcelExport.ExportRows: has the same requirement as `ExcelExport.RowsFor`, for the same reason.
- ExcelExport.RowsFor: requires every listed quadrant to exist and to list only existing ideas. Otherwise the app throws on the lookup. `ExcelExport.ValidIsExportable` shows that valid boards meet this.
- CsvImport.ImportRows: requires the per-row ids to be distinct and fresh. The app's idea ids combine a millisecond clock with a random suffix of up to 9 characters, so a collision is possible but not modelled.
- Negative `splice` indexes are not modelled: the drag library reports list positions, which are natural numbers. A start index past the end is clamped as JavaScript does.
