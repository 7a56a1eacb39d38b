# ExcelOps in Dafny

ExcelOps is a desktop tool for editing a spreadsheet through sheets. Each sheet is a view of the loaded table, with five tabs of settings: Filter, Sort, Columns, Pivot and VLOOKUP. A sheet's table is produced by a staged pipeline: filters, then sorts, then the column projection, then an optional generated pivot. A stage that raises leaves the previous table in place. Presets save and restore the settings of all sheets. A batch mode splits a table into one sheet per user. It keeps confirmation activities only, and then applies shared filters, one multi-key sort and a keep/reorder projection.

This project models that pipeline and the state around it, and proves properties of the model. Every module works on an explicit table, `TableModel.Table`: a sequence of column names and a sequence of labelled rows. Each row maps column names to cells. A cell is missing, a piece of text, or an integer. Literals parse to exact reals through a partial `ParseNum`, and no floating point is involved.

| module | file | models |
|---|---|---|
| `TableModel` | table.dfy | tables, cells, and the Python and pandas string and mask operations the code relies on |
| `Utils` | utils.dfy | `clean_numeric_series` (utils.py) |
| `VlookupSettings` | vlookup_frame.dfy | `VlookupFrame`: five saved fields and the main-key column list |
| `Vlookup` | vlookup.dfy | `_ask_choice` and `perform_vlookup`: validation, the left join, the key drop, the `_lkN` rename loop and the default fill |
| `Columns` | columns.dfy | `ColumnsManagerFrame`: moves, visibility toggles, `apply_columns` with dedupe, reconciling with new source columns, config round trip |
| `Sorting` | sorting.dfy | a stable multi-key sort with missing values last, and the fact that two stable sorts compose into one |
| `Sorts` | sorts.dfy | `SortsFrame`: the row list, presets, removal and regridding, `apply_sorts` with OR groups, config round trip |
| `Filters` | filters.dfy | `FiltersFrame`: the row list, every operator's mask, the left fold of the joins, config round trip |
| `Pivot` | pivot.dfy | `PivotFrame`: `_build_pivot`'s control flow and header flattening, the `generated` flag, selections, config round trip |
| `Batch` | batch.dfy | excelops_batch.py: user listing and selection, config filters, sorts and columns, sheet names, the per-user pipeline |
| `Presets` | presets.dfy | presets.py: the preset list, `save`, `load` and `apply_preset_to_df` |
| `MainApp` | main_app.dfy | main.py: the sheet list, fresh sheet names, the CSV delimiter guess, the base and filtered pipelines, the preview selector, preview row ids and row deletion |

Classes with `modifies` clauses model the state that the source updates in place: the settings frames, the application window and its sheet list. Loops in the source are methods proved against specification functions. The lemmas beside those functions state what the source promises: subsets and permutations of rows, orderings, stability, idempotence, freshness of names and ids, and config round trips.

Points where the model follows the code rather than what a reader might expect:
- `clean_numeric_series` in utils.py trims before it removes '%' and ','. Cleaning is therefore idempotent only when the cleaned text has no outer whitespace. `Utils.CleanTextExposesSpace` shows "% 5", whose first cleaning gives " 5".
- excelops_batch.py has its own `clean_numeric_series`, which maps only "" to missing. The text "nan" coerces to missing in both versions, so the batch code uses `Utils.CleanNumeric`.
- Pivot's count fallback, used when no value field is chosen, does not produce a table. `Pivot.PivotFrame.Build` follows the code as written, so a count pivot never previews, generates or replaces the table; `Pivot.BuildPivot` states the evidently intended build. See "## Findings".
- A single-key sort on a column that mixes numbers and text raises in pandas, which cannot order an integer against a string. Several keys are ordered through a factorisation that ranks numbers before text, and do not raise. `Sorts.SortSpec` is therefore partial, and a sheet whose sort raises keeps its filtered table.

## Model

| member | source | states |
|---|---|---|
| `TableModel.NatToString` | utils.py:6 | str() of a natural number is a non-empty run of decimal digits |
| `TableModel.Strip` | utils.py:6 | `str.strip()` restricted to the six ASCII whitespace characters space, tab, newline, carriage return, vertical tab and form feed: none of them is left at either end and the text never gets longer |
| `TableModel.RemoveChar` | utils.py:7 | replace(ch, "") leaves no ch, keeps only characters of the text, and never lengthens it |
| `TableModel.Lower` | excelops_batch.py:63 | `str.lower()` restricted to the ASCII letters A-Z: the length is kept |
| `TableModel.IndexOf` | excelops_batch.py:83 | the position of the first separator, or the length when there is none |
| `TableModel.Split` | excelops_batch.py:83 | str.split gives at least one piece and no piece holds the separator |
| `TableModel.StrippedNonEmpty` | excelops_batch.py:83 | no kept piece is blank |
| `TableModel.StrippedNonEmptyMembers` | excelops_batch.py:83 | a name is kept exactly when it is the stripped form of some piece and is not blank |
| `TableModel.ParseIntToString` | utils.py:9 | the decimal text of an integer parses back to the same number |
| `TableModel.ParseNatToString` | utils.py:9 | digits alone parse to their value |
| `TableModel.Mean` | excelops_batch.py:225 | mean(skipna=True) is missing exactly when no value is present |
| `TableModel.Select` | excelops_batch.py:272 | df[mask] never has more rows than the table |
| `TableModel.SelectIsSubseq` | excelops_batch.py:272 | df[mask] keeps some of the rows, in their order |
| `TableModel.SelectMembers` | excelops_batch.py:272 | a row is in df[mask] exactly when some position holding it is selected |
| `TableModel.SelectAll` | excelops_batch.py:272 | an all-True mask keeps every row |
| `Utils.CleanText` | utils.py:6-7 | the cleaned text is never longer than the cell's text and contains no '%' and no ',' |
| `Utils.CleanNumericOfNum` | utils.py:6-9 | an integer cell coerces to its own value |
| `Utils.CleanNumericMissing` | utils.py:8-9 | a missing cell, text that cleans to blank, and text that does not parse all coerce to missing instead of raising |
| `Utils.CleanNumericParses` | utils.py:6-9 | text whose cleaned form parses as a number coerces to exactly that number |
| `Utils.CleanColumnCells` | utils.py:4-9 | per row of the column: an integer cell gives its own value, a missing cell gives missing, and a text cell gives the parse of its cleaned text (missing when it does not parse) |
| `Utils.RemoveCharIdempotent` | utils.py:7 | removing a character a second time changes nothing |
| `Utils.CleanTextIdempotent` | utils.py:6-7 | cleaning is idempotent whenever the cleaned text has no outer whitespace |
| `Utils.CleanTextExposesSpace` | utils.py:6-7 | cleaning is not idempotent in general: "% 5" cleans to " 5", whose second cleaning is "5" |
| `VlookupSettings.Loaded` | vlookup_frame.py:74-79 | the loaded document has exactly the five keys; each one present in the input keeps its value and each missing one is "" |
| `VlookupSettings.LoadedRoundTrip` | vlookup_frame.py:65-79 | a document with exactly the five keys loads to itself |
| `VlookupSettings.LoadedIdempotent` | vlookup_frame.py:74-79 | loading an already loaded document changes nothing |
| `VlookupSettings.VlookupFrame.constructor` | vlookup_frame.py:6-14 | all five fields start blank; no columns becomes the empty list |
| `VlookupSettings.VlookupFrame.GetConfig` | vlookup_frame.py:65-72 | the saved document has exactly the five keys and loads back to itself |
| `VlookupSettings.VlookupFrame.LoadConfig` | vlookup_frame.py:74-79 | each field takes the document's value or "" when the key is missing, so `GetConfig` afterwards is the loaded document; the column list is unchanged |
| `VlookupSettings.VlookupFrame.SetColumns` | vlookup_frame.py:81-84 | the column list becomes the given names, or the empty list for none; the five fields are unchanged |
| `Vlookup.AskChoice` | vlookup_helper.py:15-28 | no options or a cancelled dialog give nothing; an accepted answer is the trimmed text and is one of the options |
| `Vlookup.AskChoiceExact` | vlookup_helper.py:15-28 | an answer is accepted exactly when options exist, the dialog was answered and its trimmed text is an option |
| `Vlookup.Keys` | vlookup_helper.py:83-111 | accepted keys are non-blank names of the table's columns; a single-key request yields exactly one key |
| `Vlookup.Validate` | vlookup_helper.py:52-138 | a request passes only with two non-empty tables, keys and value columns that exist on their side, key lists of equal length, a prefix answer (trimmed) and a fill that is never blank |
| `Vlookup.EmptyTablesAbort` | vlookup_helper.py:52-76 | a missing or empty main or lookup table aborts |
| `Vlookup.UnknownMainKeyAborts` | vlookup_helper.py:100-103 | a multi-key list naming a column the main table lacks aborts |
| `Vlookup.KeyCountMismatchAborts` | vlookup_helper.py:113-115 | key lists of different lengths abort |
| `Vlookup.AddedCols` | vlookup_helper.py:147-151 | the merge adds exactly the selected lookup names that are not main columns |
| `Vlookup.MatchMask` | vlookup_helper.py:151 | one flag per lookup row, set exactly when that row's key values equal the main row's |
| `Vlookup.Matches` | vlookup_helper.py:151 | the matching lookup rows are the lookup rows selected by the key-equality mask, so a row is a match exactly when its key values equal the main row's |
| `Vlookup.MatchesInOrder` | vlookup_helper.py:151 | the matches keep the lookup table's row order |
| `Vlookup.Extend` | vlookup_helper.py:151 | a joined row keeps the main row's values outside the added columns and takes the lookup row's values, or missing cells, in the added ones |
| `Vlookup.JoinOne` | vlookup_helper.py:151 | a main row without a match gives one row with missing cells in the added columns; otherwise exactly one row per match, in lookup order, each the main row extended by that match |
| `Vlookup.JoinRows` | vlookup_helper.py:151 | a left join never loses a main row |
| `Vlookup.JoinRowsIsConcat` | vlookup_helper.py:151 | the joined rows are the per-main-row blocks concatenated in main-row order |
| `Vlookup.JoinRowsPairs` | vlookup_helper.py:151 | every joined row extends some main row by one of its matches, or by nothing when it has none; and every such pair, and every unmatched main row, appears |
| `Vlookup.Reindex` | vlookup_helper.py:151 | the merged rows are labelled 0..n-1 and keep their values |
| `Vlookup.LeftJoin` | vlookup_helper.py:140-151 | the columns are the main table's followed by the added lookup columns; one row per joined row, labelled by position and holding that joined row's cells; never fewer rows than the main table |
| `Vlookup.JoinKeepsMainRows` | vlookup_helper.py:151 | when no main row matches twice, the join has exactly one row per main row, in order, with the main row's values |
| `Vlookup.JoinIsSingles` | vlookup_helper.py:151 | when no main row matches twice, the join is each main row extended by its only match, or by missing cells, in main order |
| `Vlookup.JoinOneSingle` | vlookup_helper.py:151 | a main row with at most one match gives exactly one row, the main row extended by its only match |
| `Vlookup.JoinKeepsMainValues` | vlookup_helper.py:151 | when no main row matches twice, joined row i has main row i's value in every column outside the added ones |
| `Vlookup.JoinOneValues` | vlookup_helper.py:151 | a main row with one match carries that lookup row's values in the added columns; one without a match carries missing cells |
| `Vlookup.DropColumn` | vlookup_helper.py:156 | the dropped column is gone, every other column stays, and every row keeps its other values |
| `Vlookup.KeepOthers` | vlookup_helper.py:156 | the remaining column list is the old one without the dropped name |
| `Vlookup.RenameColumn` | vlookup_helper.py:170 | the renamed column holds the old column's values, the header is renamed in place and every other column is unchanged |
| `Vlookup.FillColumn` | vlookup_helper.py:173-174 | missing cells of the column become the fill text; nothing else changes |
| `Vlookup.CandidateInjective` | vlookup_helper.py:165-169 | collision candidates `base_lkN` are pairwise different and never the base itself |
| `Vlookup.CandidatesTaken` | vlookup_helper.py:165-169 | n different candidates all taken means at least n names are taken, so the collision loop must end |
| `Vlookup.NextFree` | vlookup_helper.py:165-169 | the first candidate from `base_lkI` on that is not taken is itself not taken |
| `Vlookup.NextFreeFirst` | vlookup_helper.py:165-169 | the name found is some `base_lkK`, K at least the start, with every earlier candidate taken, so it is the first free one |
| `Vlookup.FreshNameSpec` | vlookup_helper.py:163-169 | the settled name is never a current column |
| `Vlookup.FreshNameFirst` | vlookup_helper.py:163-169 | the settled name is the base when it is free, otherwise the first `base_lkN` that is not a column |
| `Vlookup.FreshName` | vlookup_helper.py:163-169 | the loop settles on the specified name: the base when free, otherwise the first free `base_lkN`; it is not a current column |
| `Vlookup.DropKeys` | vlookup_helper.py:153-156 | the loop over `zip(right_on, left_on)` computes the drop specification, one pass per pair |
| `Vlookup.DropUpToFacts` | vlookup_helper.py:153-156 | exactly the lookup key columns named differently from their paired main key are removed; the row count and every other column's values are kept |
| `Vlookup.DroppedGrows` | vlookup_helper.py:153-156 | a key dropped in the first n pairs is still dropped after more pairs |
| `Vlookup.NewName` | vlookup_helper.py:160-169 | a renamed value column whose prefixed name would be a main column gets a name that is not a current column; otherwise it gets the prefixed name |
| `Vlookup.RenameValues` | vlookup_helper.py:158-174 | the loop computes the rename specification: each value column still present is renamed to its prefixed name (or a fresh `_lkN` name when that is a main column) and filled when a fill is given |
| `Vlookup.RenameUpToKeeps` | vlookup_helper.py:158-174 | renaming keeps the row and column counts; a main column that is not a value column stays with all its values |
| `Vlookup.RenameUpToShape` | vlookup_helper.py:158-174 | renaming and filling keep the row count |
| `Vlookup.PerformVlookup` | vlookup_helper.py:31-181 | the result is the specification: nothing when a check fails, no key is given, a lookup key label repeats in the selection or the merge refuses the key types; otherwise the left join, then the key drop, then the renames and fills |
| `Vlookup.VlookupKeepsMainColumns` | vlookup_helper.py:140-181 | success exactly when the checks pass with a key, no repeated key label and accepted key types; one row per joined row, never fewer than the main table; a main column that is neither a value column nor a dropped key keeps the joined values, and when no main row matches twice, main row i's own values |
| `Vlookup.RenameBefore` | vlookup_helper.py:158-174 | the passes before a value column's own pass leave it in place with its values, when no earlier value column is or is prefixed to its name |
| `Vlookup.RenamePass` | vlookup_helper.py:158-174 | a value column's own pass puts its values, with a missing one filled, under its new name |
| `Vlookup.RenameAfter` | vlookup_helper.py:158-174 | the later passes leave that new name in place with its values, when no later value column is or is prefixed to it |
| `Vlookup.RenameUpToAdded` | vlookup_helper.py:158-174 | after the whole loop, a value column present in the merged table is found under its new name (the prefixed name when that is not a main column) with its own values, a missing one replaced by the fill |
| `Vlookup.MergeAddedValues` | vlookup_helper.py:140-174 | an added value column, neither a main column nor a lookup key and clashing with no other value column, holds in every result row the joined row's lookup value, filled when missing, under its new name |
| `Vlookup.MergeAddedSingle` | vlookup_helper.py:140-174 | when no main row matches twice, result row i holds main row i's single match's value there, or the fill (else missing) when it has no match |
| `Vlookup.ValueNotKey` | vlookup_helper.py:147-151 | when no lookup key label repeats in the selection, no value column is a lookup key |
| `Vlookup.VlookupIsMerge` | vlookup_helper.py:140-181 | a successful `perform_vlookup` returns the merge, drop and rename result, and none of its value columns is a lookup key, so the added-column lemmas apply |
| `Columns.AllVisible` | columns_manager.py:21-22 | every listed column has a flag, every flag is true, and no other name has one |
| `Columns.SwapNext` | columns_manager.py:97-100 | positions `i` and `i+1` are exchanged and every other position is unchanged |
| `Columns.SwapNextPermutes` | columns_manager.py:97-100 | a move keeps the order a permutation of the same names |
| `Columns.SwapNextInvolution` | columns_manager.py:93-113 | moving an entry up and then down again restores the order |
| `Columns.Toggled` | columns_manager.py:119-120 | the chosen column's flag becomes the negation of its visibility (a missing flag counts as visible); every other flag is unchanged |
| `Columns.ToggleTwice` | columns_manager.py:115-122 | toggling a column twice restores every column's visibility |
| `Columns.VisibleList` | columns_manager.py:147-150 | a name is in the visible list iff it is in the order, visible and a column of the table |
| `Columns.VisibleListSubseq` | columns_manager.py:147-150 | the visible list keeps the order's sequence |
| `Columns.VisibleListStable` | columns_manager.py:147-150 | building the list again from the list itself changes nothing |
| `Columns.VisibleListAgree` | columns_manager.py:147-150 | the list depends only on which visible listed names are table columns |
| `Columns.RestrictRow` | columns_manager.py:153 | the projected row keeps its label and its value in every selected column |
| `Columns.Project` | columns_manager.py:153 | `df[cols]` has exactly the selected columns and one restricted row per row, in order |
| `Columns.ProjectTwice` | columns_manager.py:153 | projecting twice onto the same columns is projecting once |
| `Columns.DedupeFrom` | columns_manager.py:144 | de-duplication never adds rows |
| `Columns.FirstMask` | columns_manager.py:144 | the first-occurrence mask has one flag per row |
| `Columns.DedupeIsFirstOccurrence` | columns_manager.py:144 | `drop_duplicates(keep="first")` keeps exactly the rows whose value no earlier row has, in their order |
| `Columns.DedupeDistinct` | columns_manager.py:144 | the kept rows have pairwise different values in the column |
| `Columns.DedupeKeepsValues` | columns_manager.py:144 | every value of the column still occurs after de-duplication |
| `Columns.DedupeDistinctRows` | columns_manager.py:144 | rows whose values are already pairwise different are all kept |
| `Columns.DedupeNonEmpty` | columns_manager.py:144 | a non-empty table keeps at least one row |
| `Columns.Apply` | columns_manager.py:136-155 | an empty table comes back unchanged; otherwise the columns are the visible list, or all columns when that list is empty; never more rows than the input |
| `Columns.ApplyKeepsRows` | columns_manager.py:141-153 | without de-duplication every row is kept in order, restricted to the visible columns |
| `Columns.ApplyNoneVisible` | columns_manager.py:152-153 | with no visible listed column present, all columns are kept and only de-duplication acts |
| `Columns.ApplyIdempotent` | columns_manager.py:136-155 | applying the same column settings twice gives the same table as applying them once |
| `Columns.AppendMissing` | columns_manager.py:196-199 | the old order stays as a prefix; each table column it lacks is appended once; nothing else is added |
| `Columns.KeepIn` | columns_manager.py:200 | a name is kept iff it is listed and a current column |
| `Columns.AppendedFlags` | columns_manager.py:196-201 | the flags built in place agree with the reconciled visibility |
| `Columns.ReconciledColumns` | columns_manager.py:195-201 | after a refresh the order lists exactly the table's columns, old columns keep their flags and new ones are visible |
| `Columns.ReconciledKeepsOrder` | columns_manager.py:196-200 | surviving old columns keep their relative order and come before the new ones |
| `Columns.ReconcileSameColumns` | columns_manager.py:191-201 | refreshing against the columns the order already lists leaves the order unchanged |
| `Columns.Restore` | columns_manager.py:170-176 | missing order or visibility keep the current ones; a missing dedupe entry turns de-duplication off with no column |
| `Columns.RestoreSaved` | columns_manager.py:160-176 | loading a saved configuration restores it exactly, whatever the current state |
| `Columns.RestoreEmpty` | columns_manager.py:170-176 | an empty document keeps order and visibility and turns de-duplication off |
| `Columns.AppendColumns` | columns_manager.py:196-199 | the append loop yields the extended order and the old flags with every appended column visible |
| `Columns.ColumnsManager.constructor` | columns_manager.py:16-25 | the order is the source table's columns (none without a table), all visible, de-duplication off |
| `Columns.ColumnsManager.MoveUp` | columns_manager.py:93-102 | swaps the selected entry with the one above; nothing happens at the top or without a selection; the order stays a permutation; the rest is unchanged |
| `Columns.ColumnsManager.MoveDown` | columns_manager.py:104-113 | swaps the selected entry with the one below; nothing happens at the bottom or without a selection; the order stays a permutation; the rest is unchanged |
| `Columns.ColumnsManager.ToggleVisibility` | columns_manager.py:115-122 | flips only the selected column's flag |
| `Columns.ColumnsManager.ShowAll` | columns_manager.py:124-128 | every known column becomes visible and no flag is added or removed |
| `Columns.ColumnsManager.GetConfig` | columns_manager.py:160-168 | the saved document loads back to the current configuration |
| `Columns.ColumnsManager.LoadConfig` | columns_manager.py:170-179 | the configuration becomes the document restored over the current one |
| `Columns.ColumnsManager.Reset` | columns_manager.py:181-189 | with a source table: its columns, all visible, de-duplication off; without one nothing changes |
| `Columns.ColumnsManager.RefreshSourceDf` | columns_manager.py:191-205 | new columns are appended as visible, stale ones dropped, a stale dedupe column cleared; without a table only the source changes |
| `Sorting.CellCmpProps` | sorts.py:211 | the cell order is antisymmetric and total: two cells compare equal only when they are the same value |
| `Sorting.CellCmpTrans` | sorts.py:211 | the cell order (numbers, then text, then missing values last) is transitive |
| `Sorting.KeyCmpProps` | sorts.py:211 | one key compares two rows as equal exactly when their values in its column are equal, in either direction |
| `Sorting.RowCmpProps` | sorts.py:208-211 | comparing by several keys is antisymmetric and is zero exactly when the rows agree in every key column |
| `Sorting.RowCmpTrans` | sorts.py:208-211 | comparing by several keys is transitive |
| `Sorting.RowCmpConcat` | sorts.py:208-211 | comparing by `k1 + k2` decides by `k1` and uses `k2` only to break ties |
| `Sorting.Insert` | sorts.py:211 | insertion adds exactly one element |
| `Sorting.Sort` | sorts.py:211 | the sort keeps the number of rows |
| `Sorting.InsertPerm` | sorts.py:211 | insertion adds the new row to the multiset of rows and nothing else |
| `Sorting.InsertSorted` | sorts.py:211 | inserting into a sorted sequence keeps it sorted |
| `Sorting.InsertCls` | sorts.py:211 | an inserted row goes after every earlier row that compares equal to it |
| `Sorting.SortPerm` | sorts.py:211 | the sort is a permutation of its input |
| `Sorting.SortSorted` | sorts.py:211 | the sort's result is ordered by the keys |
| `Sorting.SortStableAt` | sorts.py:211 | within every class of equal keys the sort keeps the input order (stability, as with `kind="mergesort"`) |
| `Sorting.SortFacts` | sorts.py:211 | the sort is sorted, a permutation of the input and stable |
| `Sorting.RaisesPerm` | sorts.py:207-214 | whether a sort raises depends only on the multiset of rows, so earlier sorts do not change it |
| `Sorting.ClsConcatKeys` | sorts.py:208-211 | the class of a row under `k1 + k2` is its `k2`-class within its `k1`-class, and the other way round |
| `Sorting.SortUnique` | sorts.py:211 | at most one sequence is sorted, a permutation of the input and stable, so any stable sort gives the same result |
| `Sorting.SortTwiceSorted` | sorts.py:207-214 | sorting by `k2` and then stably by `k1` is ordered by `k1 + k2` |
| `Sorting.SortTwiceStable` | sorts.py:207-214 | sorting by `k2` and then stably by `k1` keeps the input order within every `k1 + k2` class |
| `Sorting.SortTwice` | sorts.py:205-214 | a stable sort by `k2` followed by a stable sort by `k1` equals one stable sort by `k1 + k2`, so the earlier group takes precedence |
| `Sorts.NewSortRow` | sorts.py:76-119 | only the first alive row lacks a join; a preset sets the join (later rows, AND/OR only), a non-blank column and a valid order; otherwise AND and Ascending |
| `Sorts.Regrid` | sorts.py:138-168 | regridding keeps every row's column and order, in order |
| `Sorts.Without` | sorts.py:126-134 | destroying the row at a valid position leaves one row fewer; an unknown row changes nothing |
| `Sorts.WithoutKeepsRows` | sorts.py:126-134 | every other row stays, in its order |
| `Sorts.WithoutWellFormed` | sorts.py:126-134 | removal keeps the orders and joins of the remaining rows well formed |
| `Sorts.RegridValid` | sorts.py:138-168 | after a regrid exactly the first row has no join and every other row has AND or OR |
| `Sorts.ConfigOf` | sorts.py:218-224 | one saved `(join, col, order)` entry per row, in order |
| `Sorts.Tuples` | sorts.py:218-224 | each saved entry becomes one list in the document |
| `Sorts.LoadSpecOk` | sorts.py:226-235 | loading completes exactly when every saved entry unpacks (two or three fields) |
| `Sorts.SortsFrame.constructor` | sorts.py:23-28 | a new frame holds no row |
| `Sorts.SortsFrame.AddRow` | sorts.py:70-124 | appends exactly the row `add_row` builds at the current position and keeps the rows well formed |
| `Sorts.SortsFrame.RemoveRow` | sorts.py:126-168 | the rows become the regridded rows without the removed one |
| `Sorts.SortsFrame.Reset` | sorts.py:237-246 | back to one blank row |
| `Sorts.SortsFrame.GetConfig` | sorts.py:218-224 | one entry per row, "" as the first row's join and for every later row exactly that row's join, which is AND or OR; each row's column and order |
| `Sorts.SortsFrame.LoadConfig` | sorts.py:226-235 | the rows are one blank row followed by one row per saved entry (a two-field entry gets join AND); an entry of another length stops the load |
| `Sorts.SortsFrame.ApplySorts` | sorts.py:175-215 | the grouping loop and the reversed group sorts compute `apply_sorts`: nothing when a single-key group meets a column mixing numbers and text, which pandas cannot compare, otherwise the sorted table |
| `Sorts.SortByGroups` | sorts.py:205-214 | sorting group by group, last first, raises exactly when some group raises, and otherwise gives the sort by each group in turn |
| `Sorts.SortFailsExactly` | sorts.py:184-214 | a failing sort has a usable key on a mixed column; a single usable key on a mixed column always fails |
| `Sorts.FlattenAppend` | sorts.py:199-200 | closing a group appends its keys after the earlier groups' keys |
| `Sorts.GroupStateKeys` | sorts.py:180-198 | the grouping loop never emits an empty group, and loses and reorders no usable key |
| `Sorts.GroupsKeys` | sorts.py:180-203 | the groups are non-empty and, read in order, are exactly the usable keys; there are no groups iff no row is usable |
| `Sorts.GroupStep` | sorts.py:188-198 | OR closes a non-empty current group and starts a new one; AND or a missing join extends the current group |
| `Sorts.ApplyGroupsIsOneSort` | sorts.py:205-214 | sorting group by group, last group first, equals one stable sort by all the groups' keys in order |
| `Sorts.SortsIsOneSort` | sorts.py:175-215 | when no stage raises, `apply_sorts` returns an empty table or one without usable rows unchanged, and otherwise sorts once, stably, by the usable keys in row order |
| `Sorts.SortsPermutesAndOrders` | sorts.py:175-215 | the result has the same columns, is a permutation of the rows, is ordered by the usable keys and keeps the input order of ties |
| `Sorts.ValidKeysNoColumns` | sorts.py:185-186 | a table without columns has no usable key |
| `Sorts.ValidKeysUsable` | sorts.py:184-187 | every usable key names a non-blank column of the table |
| `Sorts.JoinsDoNotMatter` | sorts.py:175-215 | two row lists with the same columns and orders give the same non-raising order (`SortedTable`) whatever their joins; it says nothing about whether either sort raises, since OR groups may raise where one AND group does not |
| `Sorts.KeyDirection` | sorts.py:187 | a key is ascending unless its order is exactly "Descending" |
| `Sorts.LoadSpecAll` | sorts.py:226-235 | loading well-formed saved entries appends one row per entry, each built as `add_row` builds it |
| `Sorts.SortConfigReload` | sorts.py:218-246 | saving then loading gives the blank row from `reset`, then the saved rows with the same columns, orders and joins, the first saved row getting AND |
| `Sorts.SortConfigRoundTrip` | sorts.py:218-246 | a save/load round trip leaves the sorting result unchanged, including whether it raises |
| `Sorts.ReloadSorted` | sorts.py:218-246 | the reloaded rows sort a table as the saved rows do |
| `Sorts.ReloadGroups` | sorts.py:180-246 | the reloaded rows form the same groups as the saved rows |
| `Sorts.FlattenMembers` | sorts.py:199-203 | a key is in the flattened groups exactly when it is in some group |
| `Filters.ColumnMask` | filters.py:184-186 | one flag per row for the column-to-column operators |
| `Filters.ContainsMask` | filters.py:188-189 | one flag per row for `contains` |
| `Filters.InMask` | filters.py:191-193 | one flag per row for `in` |
| `Filters.CleanedColumn` | filters.py:196-201 | one cleaned value per row |
| `Filters.NumMask` | filters.py:196-201 | one flag per row for a comparison with a number |
| `Filters.TextMask` | filters.py:203 | one flag per row for a comparison of string forms |
| `Filters.RelMask` | filters.py:195-203 | one flag per row for the relational operators |
| `Filters.Mask` | filters.py:182-205 | a row whose mask can be built gets one flag per table row; `None` when the operator makes it raise |
| `Filters.Collect` | filters.py:175-206 | the masks and joins come in pairs, one pair per usable row at most, each mask as long as the table |
| `Filters.Combine` | filters.py:213 | combining two masks keeps their length |
| `Filters.Fold` | filters.py:211-213 | the folded mask has one flag per table row |
| `Filters.NewRow` | filters.py:80-138 | without a preset a row is blank with operator "==" and join AND exactly when it is not the first; a preset sets each field, defaulting missing keys |
| `Filters.ConfigOf` | filters.py:218-230 | one saved entry per row, in order |
| `Filters.LoadedRows` | filters.py:232-243 | loading leaves the blank row of `reset` plus one row per saved entry |
| `Filters.FiltersFrame.constructor` | filters.py:34-39 | a new frame holds one blank row |
| `Filters.FiltersFrame.AddRow` | filters.py:80-141 | appends exactly the row `add_row` builds at the current position |
| `Filters.FiltersFrame.RemoveRow` | filters.py:143-150 | the row at the position is removed and the others keep their order; an unknown row changes nothing |
| `Filters.FiltersFrame.Reset` | filters.py:239-245 | back to one blank row |
| `Filters.FiltersFrame.GetConfig` | filters.py:218-230 | one saved entry per row that rebuilds that very row |
| `Filters.FiltersFrame.LoadConfig` | filters.py:232-236 | the rows become the blank row followed by one row per saved entry (none when the key is missing) |
| `Filters.FiltersFrame.ApplyFilters` | filters.py:171-215 | the mask loop and the fold compute `apply_filters`, including the case where it raises |
| `Filters.CollectNoneExtends` | filters.py:177-206 | once a row raises, filtering raises whatever rows follow |
| `Filters.FilterIsOrderedSubset` | filters.py:171-215 | a filtered table has the same columns and a subsequence of the rows, in order |
| `Filters.FilterEmptyTable` | filters.py:172-173 | an empty table comes back unchanged |
| `Filters.CollectAllSkipped` | filters.py:179-180 | rows with a blank or unknown column contribute no mask |
| `Filters.FilterNoUsableRow` | filters.py:208-209 | with no usable row the table comes back unchanged |
| `Filters.FoldAllAnd` | filters.py:211-213 | when no later join is "OR", a row is kept exactly when every mask keeps it |
| `Filters.FoldAllOr` | filters.py:211-213 | when every later join is "OR", a row is kept exactly when some mask keeps it |
| `Filters.NotEqualColumnNegates` | filters.py:184-186 | "== Column" keeps a row iff the two string forms are equal, and "!= Column" keeps exactly the other rows |
| `Filters.InOperator` | filters.py:191-193 | `in` keeps a row exactly when its string form is one of the trimmed non-blank comma-separated values |
| `Filters.ContainsIgnoresCase` | filters.py:188-189 | values that are equal up to case give the same `contains` mask |
| `Filters.NumericLiteralCompares` | filters.py:199-201 | a literal that parses compares numerically: an integer cell passes ">" exactly when it is larger |
| `Filters.NonNumericLiteralComparesText` | filters.py:199-203 | a literal that does not parse makes the operator compare string forms instead |
| `Filters.RelationalOpIsPlain` | filters.py:8-17 | the relational operators are disjoint from `contains`, `in` and the column operators |
| `Filters.CleanedColumnAgrees` | filters.py:20-23 | the filter's cleaned column equals the shared numeric coercion of the column |
| `Filters.ColumnAverageCompares` | filters.py:195-197 | "Column Average" in any case compares each cleaned cell with the mean of the cleaned column |
| `Filters.UnknownOperatorRaises` | filters.py:195-203 | an operator outside `OPS` that reaches the relational branches makes filtering raise |
| `Filters.FilterCleanAgrees` | filters.py:20-23 | the filter's cleaning agrees with `clean_numeric_series` of utils.py on every cell |
| `Filters.LoadSavedRows` | filters.py:218-243 | saving and then loading gives the blank reset row followed by the same rows |
| `Filters.CollectBlankFirst` | filters.py:179-180 | the extra blank row in front contributes no mask |
| `Filters.FilterConfigRoundTrip` | filters.py:218-243 | a save/load round trip leaves the filtering result unchanged |
| `Pivot.NonBlank` | pivot.py:165 | the kept segments are exactly the non-blank ones |
| `Pivot.FlattenSkipsBlank` | pivot.py:165 | blank segments do not show in a flattened header |
| `Pivot.FlattenTwo` | pivot.py:164-167 | two non-blank segments join with the separator; a lone non-blank segment is the label itself; all-blank gives "" |
| `Pivot.BuildPivot` | pivot.py:136-171 | no row field or an engine error gives nothing; otherwise the row fields come first and the rows are the engine's, followed by "Count" alone when no value and no column field is chosen, else one flattened label per engine header |
| `Pivot.BuildPivotAsWritten` | pivot.py:155-168 | as written, a build without value fields (the count branch) always fails; a build that succeeds agrees with `BuildPivot` |
| `Pivot.CountPivotLost` | pivot.py:155-168 | counts by one row field, with and without a column field: the intended result has a "Count" column or one column per column-field value, and the code as written gives nothing |
| `Pivot.Reselect` | pivot.py:113-120 | after a refresh an item is selected exactly when its name was selected before |
| `Pivot.ReselectMembers` | pivot.py:113-120 | the re-selected names are exactly the old names still among the items |
| `Pivot.ReselectSelected` | pivot.py:113-120 | re-selecting the names of a selection that treats equal names alike gives that selection back |
| `Pivot.ReselectRoundTrip` | pivot.py:214-233 | with distinct columns, saving selected names and re-selecting them restores the selection |
| `Pivot.LoadValues` | pivot.py:227-235 | a value field is selected when listed under "values", or, without that key, when it is the legacy "value" name |
| `Pivot.PivotFrame.constructor` | pivot.py:18-28 | nothing selected, aggregation "sum", not generated |
| `Pivot.PivotFrame.RefreshColumns` | pivot.py:100-126 | with `keep`, exactly the old names still present are re-selected and a vanished value column is cleared; without it every list is cleared |
| `Pivot.PivotFrame.RefreshSourceDf` | pivot.py:128-130 | the new source keeps exactly the selected names that survive, in all three lists; aggregation and flag unchanged |
| `Pivot.PivotFrame.Build` | pivot.py:136-171 | the build as written over the current selections: the intended build when a value field is selected, nothing otherwise |
| `Pivot.PivotFrame.CountPivotNotBuilt` | pivot.py:155-171 | with row fields, no value field and engine output, the frame builds nothing while the intended build gives a table |
| `Pivot.PivotFrame.Preview` | pivot.py:173-181 | a pivot is shown exactly when there is data and the as-written build gives a non-empty table; the state is untouched |
| `Pivot.PivotFrame.Generate` | pivot.py:183-191 | `generated` becomes set exactly when data exists and the as-written build succeeds, so never for a count pivot; the built pivot is shown; selections unchanged |
| `Pivot.PivotFrame.ApplyPivotIfRequested` | pivot.py:199-203 | the input comes back unless a pivot was generated and builds, in which case the pivot replaces it; no row field or no value field always gives the input |
| `Pivot.PivotFrame.Reset` | pivot.py:205-211 | not generated, nothing selected, no value column, aggregation "sum" |
| `Pivot.PivotFrame.GetConfig` | pivot.py:214-221 | the saved document holds the aggregation and the flag, and with distinct columns loading its names restores all three selections |
| `Pivot.PivotFrame.LoadConfig` | pivot.py:223-238 | after a reset, only saved names present among the columns are selected; aggregation defaults to "sum" and the flag to false |
| `Pivot.PivotConfigRoundTrip` | pivot.py:214-238 | with distinct columns, loading what was saved restores all three selections |
| `Pivot.LegacyValue` | pivot.py:234-235 | without a "values" key the legacy "value" name is selected, when present among the columns |
| `Batch.Uniq` | excelops_batch.py:62 | unique() keeps each value once and loses none: the result holds exactly the input's names, without duplicates |
| `Batch.FirstSeen` | excelops_batch.py:103-108 | a position is marked exactly when its name does not occur earlier |
| `Batch.UniqIsFirstOccurrence` | excelops_batch.py:102-109 | the de-duplicated list is exactly the first occurrence of every name in order of appearance |
| `Batch.InsertByLower` | excelops_batch.py:63 | inserting by the lower-case key adds exactly the one name |
| `Batch.SortByLower` | excelops_batch.py:63 | sorting by the lower-case key is a permutation of the names |
| `Batch.InsertByLowerSorted` | excelops_batch.py:63 | inserting into a list sorted by lower-case key keeps it sorted |
| `Batch.SortByLowerSorted` | excelops_batch.py:63 | the sorted names are in case-insensitive order |
| `Batch.InsertByLowerNoDuplicates` | excelops_batch.py:62-63 | inserting a new name into a duplicate-free list keeps it duplicate-free |
| `Batch.SortByLowerNoDuplicates` | excelops_batch.py:62-63 | sorting a duplicate-free list keeps it duplicate-free |
| `Batch.PresentStrings` | excelops_batch.py:62 | dropna then astype(str): a name is listed exactly when some non-missing cell of the column reads as it |
| `Batch.ListUniqueValues` | excelops_batch.py:59-64 | a column the table lacks gives []; otherwise a name is listed exactly when some non-missing cell reads as it, each once, in case-insensitive order |
| `Batch.Matching` | excelops_batch.py:90-95 | the matches are exactly the listed users equal to the token ignoring case (or containing it ignoring case) |
| `Batch.MatchingFirst` | excelops_batch.py:90-92 | the first match is the first matching user in list order |
| `Batch.MatchingTwo` | excelops_batch.py:95-98 | two matching users give at least two matches |
| `Batch.Pick` | excelops_batch.py:84-101 | whatever a token picks is one of the listed users |
| `Batch.Picks` | excelops_batch.py:83-101 | a user is collected exactly when some token picks it |
| `Batch.ChooseUsers` | excelops_batch.py:67-109 | the selection is the one the typed answer makes from the column's distinct values: none for an empty list or empty answer, all for "all", otherwise the tokens' picks de-duplicated |
| `Batch.PickAll` | excelops_batch.py:82-101 | the loop collects the picks of the tokens in token order |
| `Batch.FirstOccurrences` | excelops_batch.py:102-109 | the set-and-list loop keeps the first occurrence of every chosen user in order |
| `Batch.ChosenAreUsers` | excelops_batch.py:67-109 | every chosen user is listed; from a duplicate-free list the choice is duplicate-free; "all" in any case chooses every user |
| `Batch.ChosenByToken` | excelops_batch.py:82-109 | outside "all", a user is chosen exactly when some comma-separated token picks it |
| `Batch.PickByIndex` | excelops_batch.py:84-87 | a number token picks the user at that 1-based position, nobody when out of range |
| `Batch.PickExactFirst` | excelops_batch.py:89-92 | a name equal to a user ignoring case picks the first such user |
| `Batch.PickAmbiguous` | excelops_batch.py:94-99 | without an exact match, a name contained in two users is ambiguous and picks nobody |
| `Batch.PickUniqueSubstring` | excelops_batch.py:94-97 | without an exact match, a name contained in exactly one user picks that user |
| `TableModel.AllFalse` | excelops_batch.py:223 | the all-False mask has one entry per row and keeps none |
| `Batch.CompareToNumber` | excelops_batch.py:229-231 | one mask entry per row |
| `Batch.MaskOf` | excelops_batch.py:218-260 | one mask entry per row; which rows each kind of filter keeps is stated by the three lemmas below |
| `Batch.UsableFilters` | excelops_batch.py:209-217 | a filter is used exactly when its column is in the table and its operator is known |
| `Batch.MasksOf` | excelops_batch.py:208-260 | one mask per usable filter, in order, each the filter's mask over every row |
| `Batch.FoldMasks` | excelops_batch.py:264-271 | the combined mask has one entry per row |
| `Batch.ApplyConfigFilters` | excelops_batch.py:198-272 | the loops compute the filter specification: an empty table or no filters returns the input; otherwise the masks of the usable filters combined by AND or OR |
| `Batch.CollectMasks` | excelops_batch.py:208-260 | the loop collects the mask of each usable filter in filter order |
| `Batch.CombineMasks` | excelops_batch.py:262-271 | final starts as the first mask and is combined in place with each later one |
| `Batch.FoldMasksMeaning` | excelops_batch.py:264-271 | under AND a row passes exactly when every mask passes it; under OR exactly when some mask does |
| `Batch.ConfigFiltersRowRule` | excelops_batch.py:262-272 | once a filter is usable on a non-empty table, a row is kept exactly when every usable filter keeps it (logic "and" in any case) or some usable filter keeps it (any other logic) |
| `Batch.AllMasksKeep` | excelops_batch.py:264-267 | under AND a row is kept exactly when each usable filter's mask keeps it |
| `Batch.SomeMaskKeeps` | excelops_batch.py:268-271 | under OR a row is kept exactly when some usable filter's mask keeps it |
| `Batch.ConfigFiltersSubset` | excelops_batch.py:198-272 | the result has the input's columns and its rows are input rows, in order |
| `Batch.ConfigFiltersNoUsable` | excelops_batch.py:215-217 | when every filter names an absent column or an unknown operator the table comes back unchanged |
| `Batch.ColumnAverageUnavailable` | excelops_batch.py:220-227 | a column average over a column the base table lacks, or one with no numeric value, keeps no row |
| `Batch.NumericLiteralCompares` | excelops_batch.py:240-250 | a literal numeric after removing % and commas compares numerically with the cleaned cell |
| `Batch.TextLiteralEqualityOnly` | excelops_batch.py:251-258 | a text literal compares the cell's text for == and != only; any other operator keeps no row |
| `Batch.ConfigKeys` | excelops_batch.py:278-285 | the keys are the configured sorts whose column is present, in configuration order, direction defaulting to ascending |
| `Batch.ApplyConfigSorts` | excelops_batch.py:275-291 | the loop computes the sort specification: the present columns and directions, then one sort; a single key on a column mixing numbers and text raises, and the table is kept |
| `Batch.ConfigSortsFacts` | excelops_batch.py:275-291 | when the sort does not raise: same columns, a permutation of the rows, ordered by the keys with missing values last, rows equal on every key in input order; when it raises, the rows are unchanged |
| `Batch.ConfigColumnsSpec` | excelops_batch.py:294-314 | an empty table is returned; rows, labels and cells are kept; every remaining column was in the table and, when keep is given, in keep |
| `Batch.ConfigColumnsOrder` | excelops_batch.py:304-313 | the columns are reorder's surviving names in its order, or when none survives the kept names in table order |
| `Batch.ConfigColumnsIdempotent` | excelops_batch.py:294-314 | applying the same keep and reorder lists twice equals applying them once |
| `Batch.WithoutBadChars` | excelops_batch.py:319-320 | no forbidden character is left, and a name without one is unchanged |
| `Batch.SanitizeSheetName` | excelops_batch.py:317-321 | at most 31 characters, none forbidden, a prefix of the name without its forbidden characters, all of it when that fits |
| `Batch.SanitizeIdempotent` | excelops_batch.py:317-321 | an acceptable name is kept, so sanitising twice equals sanitising once |
| `Batch.UserMask` | excelops_batch.py:330 | one entry per row |
| `Batch.ActivityMask` | excelops_batch.py:337-338 | one entry per row |
| `Batch.ProcessForUsers` | excelops_batch.py:324-352 | None exactly when there is a user and the user column is missing; otherwise one sheet per listed user, each the user's rows, activity filter, shared filters, sorts and columns |
| `Batch.ActivityRows` | excelops_batch.py:330-339 | a row left after the user and activity masks has the user's name and a confirmation activity |
| `Batch.UserSheetRows` | excelops_batch.py:329-350 | every row of a user's sheet comes, with its label and cells, from an input row whose user cell reads as that user and whose activity is a confirmation |
| `Batch.NoActivityColumn` | excelops_batch.py:337-339 | without an activity column every user's sheet has no rows |
| `Presets.Stems` | presets.py:34 | one stem at most per directory entry |
| `Presets.StemsMembers` | presets.py:34 | a stem is listed exactly when some directory entry is that name followed by ".json" |
| `Presets.InsertLex` | presets.py:33-35 | inserting a name adds exactly that name |
| `Presets.SortLex` | presets.py:33-35 | sorted() is a permutation of the names |
| `Presets.InsertLexSorted` | presets.py:33-35 | inserting into a sorted list keeps it sorted |
| `Presets.SortLexSorted` | presets.py:33-35 | sorted() orders the names by code points |
| `Presets.ListPresetsFacts` | presets.py:31-35 | the presets are the ".json" entries without the suffix, each as often as listed, in sorted order |
| `Presets.Entry` | presets.py:67-75 | a sheet's entry holds each of its frames' get_config under the sheet's name |
| `Presets.Save` | presets.py:48-81 | a document only when there are sheets and a non-empty name; then one entry per sheet, in sheet order, each the sheet's entry |
| `Presets.LoadedColumns` | presets.py:121-134 | the column settings a loaded sheet ends with list exactly the table's columns |
| `Presets.Expected` | presets.py:115-138 | the restored sheet has the saved filter rows after the blank first row, every table column in its column order, one pivot flag per table column |
| `Presets.LoadEntry` | presets.py:116-138 | restoring an entry succeeds exactly when its sort rows unpack, and then the sheet holds the expected state |
| `Presets.LoadRest` | presets.py:121-138 | the columns, pivot and VLOOKUP frames of the sheet hold what the entry restores to over the data |
| `Presets.AddFresh` | presets.py:116-118 | add_sheet appends one fresh sheet over the data that shares no frame with the earlier sheets, whose state does not change |
| `Presets.RestoreInto` | presets.py:118-138 | the last added sheet is restored to its expected state when its sort rows unpack; the other sheets do not change |
| `Presets.LoadStep` | presets.py:115-138 | one round adds a sheet named after the next entry and restores it; the sheets restored before keep their names and states |
| `Presets.Load` | presets.py:106-141 | the data stays; all old sheets go; without data no sheet is added; success exactly when there are no entries, or there is data and every entry's sort rows unpack; then one sheet per entry, each named and restored from its entry; a failing entry stops the load after its sheet |
| `Presets.LoadAll` | presets.py:115-138 | the loop succeeds exactly when every entry's sort rows unpack, then leaves one restored sheet per entry in order |
| `Presets.ColumnsReload` | presets.py:72-132 | saved column settings reloaded over a table whose columns they all list apply the same way |
| `Presets.ReloadSameOutput` | presets.py:67-138 | saving a sheet and loading the entry back over the same data gives a sheet whose filter, sort and columns pipeline yields the same table |
| `Presets.EqualityFilter` | presets.py:218-219 | the columns are kept |
| `Presets.ExtraFilters` | presets.py:216-219 | the columns are kept |
| `Presets.ApplyPresetToDf` | presets.py:197-235 | the stages compute the preset specification: the table itself without sheets; nothing when the sort stage raises; otherwise the first sheet's filters, the extra equality filters, its sorts and its columns, each only when its key is present |
| `Presets.ExtraFiltersRows` | presets.py:216-219 | a row is left exactly when it is an input row whose cell reads as the value for every extra filter naming a column, and the rows left keep their input order |
| `Presets.ExtraFiltersKeeps` | presets.py:216-219 | every input row on which each extra filter naming a column holds survives the filters, and the survivors are an ordered subsequence of the input |
| `Presets.FilterStageRows` | presets.py:209-213 | the filter stage keeps the columns and returns input rows |
| `Presets.ExtraStageRows` | presets.py:216-219 | after the extra filters every row is an input row satisfying each extra filter on an input column |
| `Presets.SortStageRows` | presets.py:222-226 | the sort stage keeps the columns and the rows' origin |
| `Presets.ColumnsStageRows` | presets.py:229-233 | each row after the columns stage shows, in its columns, an input row satisfying the extra filters |
| `Presets.SameRows` | presets.py:209-226 | a table of input rows has at most as many rows and each row shows its input row |
| `Presets.PresetRowsFromData` | presets.py:197-235 | with a sheet, every returned row is an input row, keeping its label and its values in the result's columns, on which every extra filter on an input column holds; there are no more rows than in the input |
| `Presets.ExtraFiltersLength` | presets.py:216-219 | the extra filters never add rows |
| `MainApp.Names` | main.py:546 | the sheet names, one per sheet, in tab order |
| `MainApp.SheetNameInjective` | main.py:350 | different numbers give different default names |
| `MainApp.FirstMax` | main.py:303 | max over the header counts picks a candidate whose count is largest and beats every earlier candidate strictly, so ties go to the earliest |
| `MainApp.SortNats` | main.py:315 | counts.sort() gives an ascending permutation of the counts |
| `MainApp.DetectCsvDelimiter` | main.py:297-320 | the loop computes the detection specification: the header's most frequent candidate, else the best median and variance fit |
| `MainApp.HeaderDecides` | main.py:300-305 | when some candidate occurs in the header line, the one occurring most often is chosen, the earliest of those tied |
| `MainApp.FitFromFacts` | main.py:306-319 | the running best is never worse than where it started and dominates every usable candidate already seen |
| `MainApp.FitDecides` | main.py:306-320 | with no candidate in the header, a choice has the largest median among usable candidates, the smallest variance among those, and a median above 1; there is none exactly when every usable candidate has median at most 1 |
| `MainApp.ApplyOrigin` | main.py:645-648 | every row the columns stage returns is an input row, with its label and its values in the result's columns |
| `MainApp.BaseRowsFromData` | main.py:635-649 | whatever the settings, every row of the base pipeline is a data row, with its label and its values in the result's columns, and there are never more rows than in the data |
| `MainApp.FailedFilterKeepsData` | main.py:637-640 | a filter stage that raises leaves the data for the sort and column stages |
| `MainApp.FailedSortKeepsOrder` | main.py:640-645 | a sort stage that raises leaves the filtered table for the column stage |
| `MainApp.PreviewItems` | main.py:545-546 | "Raw Data" first, then every sheet name in order |
| `MainApp.SelectorChoice` | main.py:547-552 | the choice is one of the items, and it is the current choice exactly when that is still listed |
| `MainApp.SelectorStable` | main.py:544-552 | refreshing again with the same sheets keeps the choice |
| `MainApp.IdsDiffer` | main.py:606-608 | a label's plain id never equals a suffixed id, and suffixed ids at different positions differ |
| `MainApp.ShownCount` | main.py:603 | all rows with "Show full", otherwise at most 1000, never more than there are |
| `MainApp.Resolve` | main.py:724-725 | a label is resolved exactly when some selected id maps to it |
| `MainApp.DropLabels` | main.py:731 | a row stays exactly when its label is not among the resolved ones |
| `MainApp.Reindex` | main.py:732 | the rows keep their cells and are relabelled by position |
| `MainApp.DropLabelsSubseq` | main.py:731 | the rows kept keep their relative order |
| `MainApp.App.constructor` | main.py:36-42 | no data, no sheets, an empty preview map, nothing deletable |
| `MainApp.App.NextSheetName` | main.py:345-353 | the least Sheet{i} with i from 1 that is not already a sheet name |
| `MainApp.App.RefreshPreviewSelector` | main.py:544-552 | only the selector changes: to the current choice when still listed, otherwise "Raw Data" |
| `MainApp.App.AddSheet` | main.py:355-406 | without data nothing changes; otherwise one sheet with fresh frames over the data (one blank filter row, no sort row) is appended under the name, the others untouched, and the selector refreshed |
| `MainApp.App.RenameSheet` | main.py:408-430 | an empty new name or no chosen sheet changes nothing; otherwise only the chosen sheet's name changes and the selector is refreshed |
| `MainApp.App.CloseSheet` | main.py:453-465 | exactly the chosen sheet is removed, the others stay in order, and the selector is refreshed |
| `MainApp.App.GenerateBaseDf` | main.py:635-649 | the result is the base pipeline on the data, a raising filter or sort stage skipped |
| `MainApp.App.GenerateFilteredDf` | main.py:614-633 | the built pivot when one is generated and builds; otherwise the base pipeline's table |
| `MainApp.App.RenderDfIntoTree` | main.py:587-611 | no table or an empty one: nothing deletable and no ids; otherwise one distinct id per shown row mapping back to its label, and deletable |
| `MainApp.App.DeleteSelectedRows` | main.py:710-734 | refused without data, open preview, deletable preview, selection, resolved id or confirmation; otherwise rows carrying a resolved label go and the rest are relabelled 0..n-1 |
| `MainApp.NextIdFresh` | main.py:606-608 | a repeated label's suffixed id is not among the ids given so far |
| `MainApp.AssignIds` | main.py:604-610 | the loop gives each of the first n rows a distinct id that maps back to its label |
| `MainApp.DeletionKeepsOthers` | main.py:731-732 | the rows left are the old rows without the resolved labels, in order, relabelled by position |

## Left out

- Widget construction, layout, event bindings, tab menus, dialogs and message boxes. Selections, entry texts and dialog answers are plain fields or parameters; a cancelled dialog is `None`.
- `update_preview` and the rest of the rendering. Only the id logic of `_render_df_into_tree` is modelled. The re-render that follows a row deletion (main.py:733-734) is therefore not modelled either: after `MainApp.App.DeleteSelectedRows` the preview map is the stale one of the previous render.
- `duplicate_sheet` in main.py. It is a UI action that copies configs through frames already modelled, and its copy runs inside a blanket `try`.
- `load_file`, `_read_csv_safely`, `_retry_common_delimiters`, `_read_csv_with_prompt`, the export functions and `run_batch_mode` in main.py. They are file I/O and a print-only placeholder.
- The `csv.reader` tokenisation inside `_detect_csv_delimiter`. The per-delimiter field counts of the sample rows are a parameter, and a reader that raised is a missing entry.
- `FiltersFrame.refresh_source_df` and `SortsFrame.refresh_columns`. They only refresh combobox values and the stored table, which the model passes explicitly.
- `PivotFrame._get_preview_df`. The table the pivot reads is a parameter.
- Reading and writing JSON and the preset directory. `Presets.Save` returns the document instead of writing it, and `Presets.Load` takes the parsed entries. `manage` and `prompt_select_preset` are dialogs.
- Presets.Load: when an entry's sort rows do not unpack, the source raises in the middle of the loop. The model reports failure and leaves the sheets added so far. The half-restored state of the failing sheet's frames is not specified.
- automation/watcher.py and automation/automation_runner.py. They are filesystem watching and Excel-writing glue around `apply_preset_to_df`.
- In excelops_batch.py, `choose`, `load_excel`, `prompt_json_config`, `create_new_config_interactive`, `write_workbook` and `main`. They are console prompts and file I/O. The typed selection line and the configuration are parameters.
- The pandas engines. `pivot_table`'s aggregation is the parameter `Pivot.RawPivot`: headers and body as the engine returns them. `merge` is modelled as a left join whose row order and duplication follow the lookup matches. `to_numeric` and `float()` are the partial `ParseNum`: an optional sign, digits and an optional fraction. Exponents, "inf", "nan" literals and surrounding whitespace beyond `strip` are not parsed.
- Floating point. Means and parsed literals are exact reals, and cells hold integers, so rounding and float formatting are not modelled.
- Filters.ContainsMask: `str.contains` is modelled as a plain case-insensitive substring test. pandas reads the pattern as a regular expression.
- Batch.MaskOf: "contains" with a value is modelled as a literal case-insensitive substring test. The source's `str.contains` (excelops_batch.py:29, used at lines 235-237) reads the value as a regular expression, so a value holding regex metacharacters such as '.', '*' or '(' matches differently or raises.
- Batch.MaskOf: "contains" with "column_average" keeps no row. The source tests the float text of the average as a substring of each cleaned number's text, which depends on float formatting.
- Batch.ConfigSortsFacts, Batch.ApplyConfigSorts, Batch.ConfigSortsSpec: the sort is stable. pandas' default algorithm for a single key is not stable, so rows tied on the key may come out in a different order in the source.
- Vlookup.LeftJoin: a selected lookup column whose name is already a main column is not added; the model has no `_lk` column, where pandas adds the lookup's column as `<name>_lk`. The main table's column of that name is the one the later drop and rename steps act on. When that name is a lookup key paired with a differently named main key, the drop loop removes the main table's column, in the source and in the model alike, while pandas still keeps the lookup key as `<name>_lk`.
- Vlookup.PerformVlookup: the branch where the VLOOKUP tab is absent from a sheet is not modelled, because every sheet the model creates has one.
- Vlookup.PerformVlookup: whether `merge` accepts the key columns' types (it raises when one side's key is numeric and the other's is text) is the parameter `typesOk`. pandas decides it by inferring each column's type from its values, which is not part of this model.
- Vlookup.PerformVlookup: a value column listed twice, or one that is also a lookup key, gives pandas a repeated label. A repeated key label makes the merge raise, and the model fails there too. A repeated non-key value column is added once in the model, where pandas adds it twice.
- TableModel.Strip, TableModel.Lower, Batch.IsIndexToken: whitespace, lower-casing and digits are modelled for ASCII only. Python's `str.strip()` also removes '\x1c' to '\x1f', '\x85', '\xa0' and the other Unicode spaces, `str.lower()` also lower-cases non-ASCII letters (and 'İ' becomes two characters), and `str.isdigit()` also accepts non-ASCII digits. Consequences:
  - number cleaning: "1,234" followed by a no-break space coerces to 1234 in the source but to missing in `Utils.CleanNumeric`;
  - user selection: the token "élodie" picks the user "Élodie" in the source, while `Batch.Pick` picks nobody;
  - the case-insensitive user order: `Batch.SortByLower` can order names with non-ASCII capitals differently from `sorted(key=str.lower)`, e.g. "ßen" and "Éva";
  - filters: `contains` with `case=False`, the stripping of `in` lists and the other trimmed comparisons differ on non-ASCII text;
  - index tokens: the source reads "٣" as position 3 and raises on "²", while `Batch.IsIndexToken` rejects both.
- Vlookup.RenameValues, Vlookup.PerformVlookup, Columns.ApplyIdempotent: duplicate column labels are not representable, because a row's cells are a map from column name to cell. A rename onto a label that is already a column overwrites that column in the model, where pandas keeps both columns under one label: with value columns "a" and "pa" and the prefix "p", the source keeps two "pa" columns and the model only the renamed "a". `Vlookup.MergeAddedValues` therefore assumes no such clash. Likewise `df[cols]` with a name listed twice duplicates the column in pandas but not in the model, and `Columns.ApplyIdempotent` holds for such a list only because of this.
- Utils.CleanTextIdempotent: it holds only when the cleaned text has no outer whitespace. The unconditional idempotence one might expect is false, as shown by `Utils.CleanTextExposesSpace`.

## Findings

| source | as written | input that shows it | evidently intended | confidence | as-written member | corrected member |
|---|---|---|---|---|---|---|
| pivot.py:155-168 | With no value field the count branch never yields a table. Without a column field, `pivot_table(aggfunc="size")` returns a one-dimensional result: `rename("Count")` names it, but reading its `columns` raises. With a column field the result is two-dimensional, and `rename("Count")` raises because a plain name is not a label mapping. Either way `_build_pivot` returns None. | One row field, no value field, with or without a column field, any non-empty table | The row fields followed by a "Count" column, or by one count column per column-field value | not executed | `Pivot.BuildPivotAsWritten` (its discrepancy is exhibited by `Pivot.CountPivotLost`) | `Pivot.BuildPivot` |
