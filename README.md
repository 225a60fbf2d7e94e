# inventree-tui core, modelled in Dafny

inventree-tui is a terminal client for the InvenTree inventory server. Its core is two files:

- `inventree_tui/api/__init__.py` holds the row models. These are pydantic models whose fields are listed as table columns or offered for editing. The file also defines the two concrete row classes, their guarded `update`, and `transfer_items`, which sends a transfer request to the server.
- `inventree_tui/app.py` holds `ModelDataTable`, a set of row objects kept in step with the rows of a grid. It also holds the row edit dialog (`RowEditScreen`) and the transfer tab's Done and Cancel buttons (`TransferItemsTab`).

The model has five modules:

- `Common`: options, results, the error kinds raised by the source, sequence helpers, and decimal integer text.
- `ApiFields`: field tables, listed names, editable names, display names and titles.
- `ApiRows`: the cached stock item, the two row classes, building a row from keyword values, `update`, and `transfer_items`.
- `AppTable`: `ModelDataTable` as a class over a grid of row keys, cells and a cursor.
- `AppScreens`: the edit dialog and the transfer tab.

The row objects, the table, the dialog, the tab and the remote API are classes whose methods change their fields. Their contracts state the whole new state; only where the source walks a set is the order left open, namely the order of the rows it appends to the grid and the order of the entries in the transfer payload. Field listing, validation and the request payload are functions, with lemmas about them. Exceptions that the source raises become `Err` values of a `Result`. An exception that escapes an event handler is returned as `Err` from that handler's method.

## Model

| member | source | states |
|---|---|---|
| ApiFields.FieldNames | inventree_tui/api/__init__.py:19-30 | One name per declared field, in declaration order. The name is the field's alias only when aliases are asked for and the alias is a string. |
| ApiFields.EditableFields | inventree_tui/api/__init__.py:32-47 | There are never more editable names than fields. Every field that is not frozen and whose listed name is a string is offered. |
| ApiFields.EditableFieldsSubsequence | inventree_tui/api/__init__.py:32-47 | The editable names are a subsequence of the listed names: field order is kept and no name is invented. |
| ApiFields.EditableFieldsMembership | inventree_tui/api/__init__.py:32-47 | A name is offered for editing if and only if some non-frozen field with a string listed name carries it. |
| ApiFields.EditableFieldsAreEditableNames | inventree_tui/api/__init__.py:32-47 | The editable names are the listed names of the editable fields, in declaration order. |
| ApiFields.AllFrozenNoneEditable | inventree_tui/api/__init__.py:44-45 | A model whose fields are all frozen offers nothing for editing. |
| ApiFields.UnaliasedNames | inventree_tui/api/__init__.py:22-28 | When no field has an alias, asking for aliases changes no listed name. |
| ApiFields.StockItemRowEditable | inventree_tui/api/__init__.py:61-65 | The stock item row lists stock_number, part_name, quantity and current_location, with or without aliases. Only quantity is editable. |
| ApiFields.StockItemEditableAreColumns | inventree_tui/api/__init__.py:61-65 | Every name the stock item row offers for editing is one of its columns. |
| ApiFields.CheckInRowEditable | inventree_tui/api/__init__.py:127-133 | The check-in row offers no field for editing, with or without aliases. |
| ApiFields.FieldFrozen | inventree_tui/api/__init__.py:128-133 | Assigning a name is refused exactly when the first field declared under that name is frozen. |
| ApiFields.StockItemDisplayName | inventree_tui/api/__init__.py:73-81 | A heading exists exactly for the four declared columns. Any other key raises a KeyError, modelled as None. |
| ApiFields.CheckInDisplayName | inventree_tui/api/__init__.py:141-151 | A heading exists exactly for the six declared check-in fields. Any other key raises, modelled as None. |
| ApiFields.TitleName | inventree_tui/api/__init__.py:70-71 | The title starts with "Stock #". The rest reads back as the stock number. |
| ApiRows.StockRowDict | inventree_tui/api/__init__.py:61-65 | `dict()` of a stock item row has exactly the four declared fields as keys. |
| ApiRows.ValidateStockRow | inventree_tui/api/__init__.py:108-109 | Keyword construction succeeds if and only if all four fields validate. Otherwise it raises a ValidationError with at least one message. |
| ApiRows.ValidateDictRoundTrip | inventree_tui/api/__init__.py:108-109 | A row's own `dict()` validates back to the same values. |
| ApiRows.ValidateEditedQuantity | inventree_tui/api/__init__.py:64 | Replacing the quantity with the decimal text of an integer gives a row with that quantity. Every other value is unchanged. |
| ApiRows.ValidateBadQuantity | inventree_tui/api/__init__.py:64 | Quantity text that is not an integer is refused with the int-parsing message alone. |
| ApiRows.StockItemUpdateAccepted | inventree_tui/api/__init__.py:111-120 | On the stock item row, an update fails exactly when it is validated, growing is not allowed, and the new quantity is above the original. It then fails with the ValueError naming the original quantity. |
| ApiRows.CheckInUpdateRefused | inventree_tui/api/__init__.py:178-187 | On the check-in row an update never succeeds, because quantity is frozen. |
| ApiRows.ValidatedUpdateWithinStock | inventree_tui/api/__init__.py:112-115 | A successful validated update that may not grow never sets a quantity above the original. |
| ApiRows.CachedStockItemRow.FromItem | inventree_tui/api/__init__.py:99-107 | A row built from an item copies its pk, part name, quantity and location, and keeps the item. |
| ApiRows.CachedStockItemRow.FromValues | inventree_tui/api/__init__.py:108-109 | A row built from keyword values holds those values and has no cached item. |
| ApiRows.CachedStockItemRow.Update | inventree_tui/api/__init__.py:111-120 | The result follows the update rule. On success the row and its cached item both hold the new quantity. On failure neither changes. |
| ApiRows.AttrMatchesDict | inventree_tui/api/__init__.py:61-65 | `getattr` and `dict()` agree on every declared field. |
| ApiRows.CachedStockItemCheckInRow.FromItem | inventree_tui/api/__init__.py:160-174 | The check-in row copies the item, uses "UNKNOWN" for a missing part name, and records the given time. |
| ApiRows.CachedStockItemCheckInRow.Update | inventree_tui/api/__init__.py:178-187 | Always fails, with the ValueError or the frozen-field error. Neither quantity changes. |
| ApiRows.StockApi.AdjustStockItems | inventree_tui/api/__init__.py:91 | Each request received is recorded after the earlier ones. |
| ApiRows.Payload | inventree_tui/api/__init__.py:84-86 | One entry per item, in input order, holding the item's pk and quantity. |
| ApiRows.TransferPayload | inventree_tui/api/__init__.py:83-89 | Succeeds if and only if every item moves whole, and then returns one entry per item. Otherwise it raises NotImplementedError. |
| ApiRows.TransferItems | inventree_tui/api/__init__.py:83-91 | The API receives one "transfer" request with the payload and the location's pk if and only if every item moves whole. Otherwise the API receives nothing. |
| AppTable.ClampRow | inventree_tui/app.py:108 | The cursor is 0 on an empty grid and otherwise always on an existing row. A row already in range is kept, a row below 0 becomes 0 and a row past the end becomes the last row. |
| AppTable.ClampTwice | inventree_tui/app.py:108-109 | Clamping into a range, then into a smaller one, is the same as clamping into the smaller one once. |
| AppTable.SortColumnCheck | inventree_tui/app.py:34-39 | The sort column is accepted if and only if it is absent or one of the aliased field names. Otherwise the exception lists the options. |
| AppTable.TransferTableSortColumn | inventree_tui/app.py:244-249 | The transfer table's "part_name" and no sort column are both accepted. An unknown key is refused. |
| AppTable.NewModelDataTable | inventree_tui/app.py:34-39 | Construction fails exactly when the sort check fails, with its exception. Otherwise the new table is empty and well formed. |
| AppTable.RowCells | inventree_tui/app.py:77-81 | A new row's cells are the object's attributes, one per column, in column order. |
| AppTable.ColumnLabels | inventree_tui/app.py:41-45 | One heading per column key: that key's display name. |
| AppTable.StockItemLabels | inventree_tui/app.py:41-45 | The transfer table's headings are Stock Number, Part Name, Quantity and Current Location. |
| AppTable.ModelDataTable.constructor | inventree_tui/app.py:34-48 | A new table has no rows and no data, its cursor at 0, and the stock item headings. |
| AppTable.ModelDataTable.AddItem | inventree_tui/app.py:60-64 | An object already present changes nothing. A new object joins `data` and gets one row at the end, with current cells. |
| AppTable.ModelDataTable.ClearData | inventree_tui/app.py:66-71 | After clearing, `data`, the rows and the cells are empty and the cursor is 0. |
| AppTable.ModelDataTable.OnKey | inventree_tui/app.py:101-109 | On a non-empty table, delete removes the object under the cursor from `data` and its row from the grid. The cursor moves up one row, or stays at 0. Any other key, or an empty table, changes nothing. |
| AppTable.ModelDataTable.Update | inventree_tui/app.py:73-92 | Afterwards the rows are exactly `data`, without repeats. Surviving rows keep their order, new objects are appended after them, and every cell shows its object's current attribute. The cursor is clamped. A table already in step with `data` keeps its rows and its cursor. |
| AppTable.ModelDataTable.AddMissingRows | inventree_tui/app.py:77-81 | The appended rows are exactly the objects of `data` that had no row. The old rows keep their cells and each new row shows its object's attributes. |
| AppTable.ModelDataTable.RemoveStaleRows | inventree_tui/app.py:83-86 | The rows become the old rows whose object is still in `data`, in their old order, and each of them keeps the cells it had. |
| AppTable.ModelDataTable.RefreshCells | inventree_tui/app.py:88-92 | Every cell is rewritten from its row object's attribute under its column key. |
| AppTable.ModelDataTable.AddRow | inventree_tui/app.py:81 | The row key and its cells are appended. |
| AppTable.ModelDataTable.RemoveRow | inventree_tui/app.py:86 | Exactly that row goes, and the cells at its position go with it. The other rows and cells keep their order. The cursor is clamped to the remaining rows. |
| AppTable.ModelDataTable.UpdateCell | inventree_tui/app.py:91 | Only the one cell changes. |
| AppTable.ModelDataTable.MoveCursor | inventree_tui/app.py:108 | The cursor goes to the requested row, clamped to the rows present. |
| AppScreens.InputValues | inventree_tui/app.py:215-218 | The dictionary's keys are exactly the input names. |
| AppScreens.InputValuesLastWins | inventree_tui/app.py:217-218 | When several inputs share a name, the last one's text is kept. |
| AppScreens.CollectInputs | inventree_tui/app.py:215-218 | The loop builds the same dictionary as `InputValues`. |
| AppScreens.MergedValues | inventree_tui/app.py:220 | The merged keys are the row's fields plus the input names. |
| AppScreens.MergedValuesPrefersInputs | inventree_tui/app.py:220 | A key with an input takes the input's text. Every other key keeps the row's value. |
| AppScreens.OkAsWrittenRaisesTypeError | inventree_tui/app.py:221-230 | As written, building the row always raises the missing-argument TypeError, which neither `except` clause catches. |
| AppScreens.OkConstructionValidates | inventree_tui/app.py:222 | Passing None as the positional argument turns building the row into validating the merged values. Submitting no inputs gives back the row's own values. |
| AppScreens.OkConstructionOfQuantity | inventree_tui/app.py:215-222 | Typing an integer into the quantity box gives the row with that quantity. |
| AppScreens.ReadFields | inventree_tui/app.py:171-174 | The loop reads every given field from the row: its keys are exactly the names, and each value is the row's attribute. |
| AppScreens.RowEditScreen.constructor | inventree_tui/app.py:163-174 | The title is "Row Edit: " plus the row's title. There is one start value per editable field, read from the row. |
| AppScreens.RowEditScreen.OnButtonPressed | inventree_tui/app.py:209-233 | Cancel dismisses the dialog and any other button except OK does nothing. On OK: a caught error is shown and leaves the row, the table and the dialog as they were; an uncaught one escapes; success updates the row and its item to the quantity entered, refreshes the cells and dismisses the dialog. The table keeps its objects, rows and cursor, and the error message stays. The title and start values never change. The table is expected in step with its objects, which its constructor and every table operation ensure. |
| AppScreens.RowEditScreen.ApplyEdit | inventree_tui/app.py:221-233 | The row is updated with the new quantity. A refused update is shown as the error message and leaves the table alone. Success refreshes the table's cells, keeps its rows and dismisses the dialog. |
| AppScreens.DoneErrors | inventree_tui/app.py:306-313 | The no-items message appears if and only if the table is empty. The no-destination message appears if and only if no destination is set. The list is empty only when both conditions are met. |
| AppScreens.TransferredStatusPlural | inventree_tui/app.py:324-325 | One item reads "stock item" and more read "stock items". |
| AppScreens.TransferItemsTab.constructor | inventree_tui/app.py:236-254 | A new tab has no destination, status "Status Ok" and no error dialog. |
| AppScreens.TransferItemsTab.ScannedItems | inventree_tui/app.py:320 | One cached item per object of `data`, each object taken once, in an order left open as the set's iteration order is. |
| AppScreens.TransferItemsTab.OnButtonPressed | inventree_tui/app.py:302-330 | Done with errors: the status line and the error dialog report them and nothing else changes. Done with no errors sends a single transfer request with one `{pk, quantity}` entry per scanned item, sets the status and clears the table; a refused transfer escapes and leaves both alone. The request is sent exactly when every scanned quantity is whole. Its entries follow the iteration order of the set `data`, which the model leaves open: each object of `data` gives exactly one entry. The error dialog changes only on the error path. Cancel clears the table. |
| AppScreens.TransferItemsTab.Transfer | inventree_tui/app.py:320-326 | One transfer request with the payload of the items goes to the destination exactly when every quantity is whole. After it the status names the count and the table is empty. A refused transfer changes nothing. |
| AppScreens.TransferItemsTab.Finish | inventree_tui/app.py:323-326 | The status line reports the count moved and the table is cleared. |

## Findings

| source | as written | input that shows it | evidently intended | confidence | as-written member | corrected member |
|---|---|---|---|---|---|---|
| inventree_tui/app.py:222 | `self.row.__class__(**values)` passes only keyword arguments, but the row constructor's first parameter, `cached_stock_item`, is positional and required. | Press OK in the edit dialog of any row, with or without a changed quantity. The resulting TypeError is caught by neither `except` clause. | `self.row.__class__(None, **values)`, which takes the keyword branch and validates the merged values. | not executed | AppScreens.OkAsWrittenRaisesTypeError | AppScreens.OkConstructionValidates |

`AppScreens.RowEditScreen.OnButtonPressed` uses the corrected construction.

## Left out

- Screen layout, CSS, focus changes, widget styling and the reactive watchers are user interface only. This covers `compose`, `watch_destination`, `watch_error_message`, `LabeledText`, `ErrorDialogScreen` and `InventreeApp`.
- Logging is left out.
- The transfer tab's `on_mount` scans, `handle_item_input` and `on_input_submitted` depend on `scanBarcode`. `scanBarcode` is a remote call, and `inventree_tui/api/base.py` and the scanner module are not part of this model.
- `on_data_table_row_selected` and the `RowEditEvent` and `IgnorableErrorEvent` routing are message plumbing of the user interface. An `IgnorableErrorEvent` appears only as the tab's `errorDialog` field.
- `CheckInItemsTab` shows a fixed text and has no logic.
- `RowBaseModel.update`, `RowBaseModel.title_name` and `CachedStockItemRowModel.update` only raise NotImplementedError, and both concrete rows override them.
- `RowBaseModel.field_display_name` returns its argument, and both concrete models override it.
- `ModelDataTable` is specialised to `CachedStockItemRow`, the only model class the application puts in a table.
- `sort_column_key` is checked but never used to sort, because the source never sorts.
- Rows are identified as objects. The source hashes a row by its cached item, and pydantic compares rows by value.
- pydantic's lax integer parsing is reduced to an optional '-' followed by decimal digits. Surrounding whitespace, '+', '_' separators and integral float text such as "3.0" are not modelled.
- The sort-column message renders the options with single quotes and no escaping, which is Python's list repr for plain names.
- The clock reading `datetime.now()` is a parameter, and timestamps are integers.
- `StockItem.adjustStockItems` is a remote call. `StockApi` records each request and nothing of its effect on the server.
- The reactive `data` default is one set object shared by every table instance until it is reassigned. The model gives each table its own set, which matters only with several tables.
- Asynchronous handlers and the watcher run by assigning `data` are modelled as running to completion in order.
- An exception escaping a handler ends the application in the source. Here the handler returns it as `Err`.
- The grid's internal row and column key objects, `get_row` and `ordered_rows` are left out. Rows are in insertion order and cells are positional.
- Inputs of float type and text start values do not arise for the stock item row, whose only editable field is an integer.
- ApiRows.CachedStockItemRow.FromItem: requires a part name. With none, the source's pydantic validation raises ValidationError, which the model does not build.
- AppScreens.RowEditScreen.OnButtonPressed: the dialog's inputs are a parameter. The input widgets' own filtering of typed characters is not modelled.
