/**
 * The two event handlers of inventree_tui/app.py that change state: the row edit dialog's buttons
 * (`RowEditScreen`) and the transfer tab's Done and Cancel buttons (`TransferItemsTab`).
 */
module AppScreens {
  import opened Common
  import opened ApiFields
  import opened ApiRows
  import opened AppTable

  /** An input box of the edit dialog: its name and the text it holds. */
  datatype InputField = InputField(name: string, value: string)

  /** The dictionary the dialog fills from its inputs: later inputs overwrite earlier ones of the same name. */
  function InputValues(inputs: seq<InputField>): (m: map<string, Value>)
    ensures forall k :: k in m ==> exists i :: 0 <= i < |inputs| && inputs[i].name == k
    ensures forall i :: 0 <= i < |inputs| ==> inputs[i].name in m
  {
    if inputs == [] then map[]
    else
      var last := inputs[|inputs| - 1];
      var front := inputs[..|inputs| - 1];
      var m := InputValues(front);
      assert forall i :: 0 <= i < |front| ==> front[i] == inputs[i];
      m[last.name := StrV(last.value)]
  }

  /** Each name maps to the text of the LAST input carrying it. */
  lemma {:induction false} InputValuesLastWins(inputs: seq<InputField>, i: nat)
    requires i < |inputs|
    requires forall j :: i < j < |inputs| ==> inputs[j].name != inputs[i].name
    ensures InputValues(inputs)[inputs[i].name] == StrV(inputs[i].value)
  {
    if i < |inputs| - 1 {
      var front := inputs[..|inputs| - 1];
      assert front[i] == inputs[i];
      InputValuesLastWins(front, i);
    }
  }

  /** The loop `values[i.name] = i.value` over the dialog's inputs. */
  method CollectInputs(inputs: seq<InputField>) returns (values: map<string, Value>)
    ensures values == InputValues(inputs)
  {
    values := map[];
    var i := 0;
    while i < |inputs|
      invariant 0 <= i <= |inputs|
      invariant values == InputValues(inputs[..i])
    {
      assert inputs[..i + 1][..i] == inputs[..i];
      values := values[inputs[i].name := StrV(inputs[i].value)];
      i := i + 1;
    }
    assert inputs[..i] == inputs;
  }

  /** The candidate values: the row's `dict()` overridden by the inputs (Python's `|`). */
  function MergedValues(v: StockRowValues, inputs: seq<InputField>): (m: map<string, Value>)
    ensures forall k :: k in m <==> k in StockRowDict(v) || k in InputValues(inputs)
  {
    StockRowDict(v) + InputValues(inputs)
  }

  /** Inputs win on shared keys; keys without an input keep the row's value. */
  lemma MergedValuesPrefersInputs(v: StockRowValues, inputs: seq<InputField>, k: string)
    requires k in MergedValues(v, inputs)
    ensures k in InputValues(inputs) ==> MergedValues(v, inputs)[k] == InputValues(inputs)[k]
    ensures k !in InputValues(inputs) ==> MergedValues(v, inputs)[k] == StockRowDict(v)[k]
  {
  }

  /** The OK button's construction as written: `self.row.__class__(**values)`. */
  function OkConstructionAsWritten(v: StockRowValues, inputs: seq<InputField>): Result<StockRowValues>
  {
    CallRowInit(false, MergedValues(v, inputs))
  }

  /** The OK button's construction with the positional argument given: `self.row.__class__(None, **values)`. */
  function OkConstruction(v: StockRowValues, inputs: seq<InputField>): Result<StockRowValues>
  {
    CallRowInit(true, MergedValues(v, inputs))
  }

  /** The dialog's inputs are named after the row's fields. */
  ghost predicate InputsNamedByFields(inputs: seq<InputField>)
  {
    forall i :: 0 <= i < |inputs| ==> inputs[i].name in StockItemColumns
  }

  /**
   * As written, the constructor never receives `cached_stock_item`, so every press of OK raises
   * TypeError, which neither `except` clause catches.
   */
  lemma OkAsWrittenRaisesTypeError(v: StockRowValues, inputs: seq<InputField>)
    requires InputsNamedByFields(inputs)
    ensures OkConstructionAsWritten(v, inputs) == Err(TypeError(MissingInitArgument))
    ensures CaughtMessage(OkConstructionAsWritten(v, inputs).error).None?
  {
    NoInitParameterInMerge(v, inputs);
  }

  lemma NoInitParameterInMerge(v: StockRowValues, inputs: seq<InputField>)
    requires InputsNamedByFields(inputs)
    ensures InitParameter !in MergedValues(v, inputs)
  {
  }

  /** With the positional argument given, OK validates the merged values: the row's own values come back unchanged. */
  lemma OkConstructionValidates(v: StockRowValues, inputs: seq<InputField>)
    requires InputsNamedByFields(inputs)
    ensures OkConstruction(v, inputs) == ValidateStockRow(MergedValues(v, inputs))
    ensures OkConstruction(v, []) == Ok(v)
  {
    NoInitParameterInMerge(v, inputs);
    NoInitParameterInMerge(v, []);
    assert MergedValues(v, []) == StockRowDict(v);
    ValidateDictRoundTrip(v);
  }

  /** Typing the decimal text of an integer into the quantity box yields a row with that quantity. */
  lemma OkConstructionOfQuantity(v: StockRowValues, q: int)
    ensures OkConstruction(v, [InputField("quantity", IntString(q))]) == Ok(v.(quantity := q))
  {
    var inputs := [InputField("quantity", IntString(q))];
    assert InputValues(inputs) == map["quantity" := StrV(IntString(q))];
    assert MergedValues(v, inputs) == StockRowDict(v)["quantity" := StrV(IntString(q))];
    NoInitParameterInMerge(v, inputs);
    ValidateEditedQuantity(v, q);
  }

  /** What the handler's two `except` clauses show for an error: a validation error's messages joined, a value error's text. */
  function CaughtMessage(e: Error): Option<string>
  {
    match e
    case ValidationError(messages) => Some(Join(messages, ". "))
    case ValueError(message) => Some(message)
    case _ => None
  }

  /** The loop `values[name] = getattr(row, name)` over the given field names. */
  method ReadFields(row: CachedStockItemRow, names: seq<string>) returns (values: map<string, Value>)
    requires forall i :: 0 <= i < |names| ==> names[i] in StockItemColumns
    ensures values.Keys == Elems(names)
    ensures forall name :: name in values ==> name in StockItemColumns && values[name] == row.Attr(name)
  {
    values := map[];
    var i := 0;
    while i < |names|
      invariant 0 <= i <= |names|
      invariant values.Keys == Elems(names[..i])
      invariant forall name :: name in values ==> name in StockItemColumns && values[name] == row.Attr(name)
    {
      assert names[..i + 1] == names[..i] + [names[i]];
      assert Elems(names[..i + 1]) == Elems(names[..i]) + {names[i]};
      values := values[names[i] := row.Attr(names[i])];
      i := i + 1;
    }
    assert names[..i] == names;
  }

  /** `RowEditScreen`: the edit dialog of one row of a table. */
  class RowEditScreen {
    var table: ModelDataTable
    var row: CachedStockItemRow
    var dialogTitle: string
    var startValues: map<string, Value>
    var errorMessage: string
    var dismissed: bool

    /** `__init__`: the title names the stock item; one start value per editable field, read from the row. */
    constructor (table: ModelDataTable, row: CachedStockItemRow)
      ensures this.table == table && this.row == row
      ensures dialogTitle == "Row Edit: " + TitleName(row.stockNumber)
      ensures startValues.Keys == Elems(EditableFields(StockItemRowFields, true))
      ensures forall name :: name in startValues ==> name in StockItemColumns && startValues[name] == row.Attr(name)
      ensures errorMessage == "" && !dismissed
    {
      this.table := table;
      this.row := row;
      dialogTitle := "Row Edit: " + TitleName(row.stockNumber);
      var editable := EditableFields(StockItemRowFields, true);
      StockItemEditableAreColumns();
      var values := ReadFields(row, editable);
      startValues := values;
      errorMessage := "";
      dismissed := false;
    }

    /**
     * `on_button_pressed`: Cancel dismisses; OK merges the inputs into the row's values, builds a
     * row from them and updates this row with validation. A caught error is shown in the dialog,
     * which stays open with the table untouched; otherwise the table is refreshed and the dialog
     * dismissed. An error neither clause catches escapes the handler as `Err`.
     */
    method OnButtonPressed(buttonId: string, inputs: seq<InputField>) returns (r: Result<()>)
      requires table.Valid() && table.Synced() && row.cached != null
      modifies this, row`quantity, row.cached`quantity, table
      ensures table == old(table) && row == old(row)
      ensures dialogTitle == old(dialogTitle) && startValues == old(startValues)
      ensures buttonId != "ok" ==>
        && r.Ok? && row.quantity == old(row.quantity)
        && row.cached.quantity == old(row.cached.quantity) && errorMessage == old(errorMessage)
        && unchanged(table)
        && dismissed == (old(dismissed) || buttonId == "cancel")
      ensures buttonId == "ok" ==>
        var built := OkConstruction(old(row.Values()), inputs);
        var updated := if built.Ok? then
            UpdateResult(StockItemRowFields, built.value.quantity, old(row.cached.originalQuantity), true, false)
          else Err(built.error);
        && (updated.Err? ==>
              && row.quantity == old(row.quantity) && row.cached.quantity == old(row.cached.quantity)
              && unchanged(table) && dismissed == old(dismissed))
        && (updated.Err? && CaughtMessage(updated.error).Some? ==> r.Ok? && errorMessage == CaughtMessage(updated.error).value)
        && (updated.Err? && CaughtMessage(updated.error).None? ==> r == Err(updated.error) && errorMessage == old(errorMessage))
        && (updated.Ok? ==>
              && r.Ok? && dismissed && errorMessage == old(errorMessage)
              && row.quantity == built.value.quantity && row.cached.quantity == built.value.quantity
              && table.data == old(table.data) && table.rowKeys == old(table.rowKeys)
              && table.cursorRow == old(table.cursorRow) && table.columns == old(table.columns)
              && table.labels == old(table.labels) && table.sortColumnKey == old(table.sortColumnKey)
              && table.Valid() && table.Synced() && table.CellsCurrent())
    {
      if buttonId == "cancel" {
        dismissed := true;
        return Ok(());
      } else if buttonId != "ok" {
        return Ok(());
      }
      var values := CollectInputs(inputs);
      var merged := StockRowDict(row.Values()) + values;
      var other := CallRowInit(true, merged);
      if other.Err? {
        var caught := CaughtMessage(other.error);
        if caught.None? {
          return Err(other.error);
        }
        errorMessage := caught.value;
        return Ok(());
      }
      r := ApplyEdit(other.value.quantity);
    }

    /**
     * The `try` block after the new row is built: `self.row.update(other, validate=True)`, then the
     * table refresh and the dismissal. Its errors are handled as in `on_button_pressed`.
     */
    method ApplyEdit(quantity: int) returns (r: Result<()>)
      requires table.Valid() && table.Synced() && row.cached != null
      modifies this, row`quantity, row.cached`quantity, table
      ensures table == old(table) && row == old(row)
      ensures dialogTitle == old(dialogTitle) && startValues == old(startValues)
      ensures var updated := UpdateResult(StockItemRowFields, quantity, old(row.cached.originalQuantity), true, false);
        && (updated.Err? ==>
              && row.quantity == old(row.quantity) && row.cached.quantity == old(row.cached.quantity)
              && unchanged(table) && dismissed == old(dismissed))
        && (updated.Err? && CaughtMessage(updated.error).Some? ==> r.Ok? && errorMessage == CaughtMessage(updated.error).value)
        && (updated.Err? && CaughtMessage(updated.error).None? ==> r == Err(updated.error) && errorMessage == old(errorMessage))
        && (updated.Ok? ==>
              && r.Ok? && dismissed && errorMessage == old(errorMessage)
              && row.quantity == quantity && row.cached.quantity == quantity
              && table.data == old(table.data) && table.rowKeys == old(table.rowKeys)
              && table.cursorRow == old(table.cursorRow) && table.columns == old(table.columns)
              && table.labels == old(table.labels) && table.sortColumnKey == old(table.sortColumnKey)
              && table.Valid() && table.Synced() && table.CellsCurrent())
    {
      var updated := row.Update(quantity, true, false);
      if updated.Err? {
        var caught := CaughtMessage(updated.error);
        if caught.None? {
          return Err(updated.error);
        }
        errorMessage := caught.value;
        return Ok(());
      }
      table.Update();
      dismissed := true;
      return Ok(());
    }
  }

  const NoItemsMessage: string := "No items have been scanned yet."
  const NoDestinationMessage: string := "Destination not set."

  /** The Done button's error list: one message for an empty table, one for a missing destination, in that order. */
  function DoneErrors(tableEmpty: bool, destinationSet: bool): (errors: seq<string>)
    ensures NoItemsMessage in errors <==> tableEmpty
    ensures NoDestinationMessage in errors <==> !destinationSet
    ensures errors == [] <==> !tableEmpty && destinationSet
    ensures |errors| <= 2 && (tableEmpty ==> errors[0] == NoItemsMessage)
  {
    (if tableEmpty then [NoItemsMessage] else []) + (if destinationSet then [] else [NoDestinationMessage])
  }

  /** The status line after a transfer: the count, "item" or "items", and the destination's name. */
  function TransferredStatus(count: nat, destinationName: string): string
  {
    "Transferred " + IntString(count) + " stock item" + (if count > 1 then "s" else "") + " to " + destinationName
  }

  /** One item reads "stock item", more read "stock items". */
  lemma TransferredStatusPlural(count: nat, destinationName: string)
    requires count >= 1
    ensures count == 1 ==> TransferredStatus(count, destinationName) == "Transferred 1 stock item to " + destinationName
    ensures count > 1 ==>
      TransferredStatus(count, destinationName) == "Transferred " + IntString(count) + " stock items to " + destinationName
  {
  }

  /** An `IgnorableErrorEvent`, shown by the application as an error dialog. */
  datatype ErrorDialog = ErrorDialog(title: string, message: string)

  /** `TransferItemsTab`: a destination, a table of scanned rows and a status line. */
  class TransferItemsTab {
    var destination: Option<StockLocation>
    var status: string
    var table: ModelDataTable
    var api: StockApi
    var errorDialog: Option<ErrorDialog>

    /** The table is consistent and every scanned row wraps a cached item. */
    ghost predicate Valid()
      reads this, table, table.data
    {
      table.Valid() && table.Synced() && forall row :: row in table.data ==> row.cached != null
    }

    constructor (table: ModelDataTable, api: StockApi)
      requires table.Valid() && table.Synced() && table.data == {}
      ensures Valid() && this.table == table && this.api == api
      ensures destination == None && status == "Status Ok" && errorDialog == None
    {
      this.table := table;
      this.api := api;
      destination := None;
      status := "Status Ok";
      errorDialog := None;
    }

    /** `[row.item for row in table.data]`, in the set's iteration order. */
    method ScannedItems() returns (items: seq<CachedStockItem>, ghost order: seq<CachedStockItemRow>)
      requires Valid()
      ensures |items| == |order| == |table.data|
      ensures Elems(order) == table.data && Distinct(order)
      ensures forall i :: 0 <= i < |order| ==> items[i] == order[i].cached
    {
      items := [];
      order := [];
      var rest := table.data;
      while rest != {}
        invariant rest <= table.data
        invariant |items| == |order|
        invariant Elems(order) == table.data - rest && Distinct(order)
        invariant |order| + |rest| == |table.data|
        invariant forall i :: 0 <= i < |order| ==> items[i] == order[i].cached
        decreases rest
      {
        var row :| row in rest;
        assert row !in Elems(order);
        assert forall i :: 0 <= i < |order| ==> order[i] in Elems(order);
        assert Elems(order + [row]) == Elems(order) + {row};
        items := items + [row.cached];
        order := order + [row];
        rest := rest - {row};
        assert Distinct(order);
      }
    }

    /** Done with a non-empty table and a destination: the transfer of the scanned items, the status line and the clearing. */
    method Transfer(items: seq<CachedStockItem>) returns (r: Result<()>)
      requires Valid() && destination.Some?
      modifies this, table, api
      ensures table == old(table) && api == old(api) && destination == old(destination)
      ensures errorDialog == old(errorDialog)
      ensures r.Ok? <==> WholeQuantities(items)
      ensures r.Ok? ==>
        && status == TransferredStatus(|items|, old(destination).value.name)
        && api.adjustments == old(api.adjustments) + [Adjustment("transfer", Payload(items), old(destination).value.pk)]
        && table.data == {} && table.rowKeys == [] && table.cells == [] && table.cursorRow == 0
        && table.columns == old(table.columns) && table.labels == old(table.labels)
        && table.sortColumnKey == old(table.sortColumnKey)
        && table.Valid() && table.Synced()
      ensures r.Err? ==>
        && r.error == NotImplementedError(PartialTransferMessage)
        && status == old(status) && unchanged(table) && api.adjustments == old(api.adjustments)
    {
      var transferred := TransferItems(items, destination.value, api);
      if transferred.Err? {
        return Err(transferred.error);
      }
      Finish(|items|);
      return Ok(());
    }

    /** After a transfer: the status line reports it and the table is cleared. */
    method Finish(count: nat)
      requires Valid() && destination.Some?
      modifies this, table
      ensures table == old(table) && api == old(api) && destination == old(destination)
      ensures errorDialog == old(errorDialog)
      ensures status == TransferredStatus(count, destination.value.name)
      ensures table.data == {} && table.rowKeys == [] && table.cells == [] && table.cursorRow == 0
      ensures table.columns == old(table.columns) && table.labels == old(table.labels)
      ensures table.sortColumnKey == old(table.sortColumnKey)
      ensures table.Valid() && table.Synced()
    {
      status := TransferredStatus(count, destination.value.name);
      table.ClearData();
    }

    /**
     * `on_button_pressed`. Done: with errors, the error dialog and the status line report them and
     * nothing else happens; otherwise the scanned items (`items`, one per row of the table, taken
     * in `order`) are transferred, the status reports the count and the table is cleared. A refused
     * transfer escapes the handler as `Err`. Cancel clears the table.
     */
    method OnButtonPressed(buttonId: string)
      returns (r: Result<()>, ghost items: seq<CachedStockItem>, ghost order: seq<CachedStockItemRow>)
      requires Valid()
      modifies this, table, api
      ensures table == old(table) && api == old(api) && destination == old(destination)
      ensures buttonId == "done_button" ==>
        var errors := DoneErrors(old(table.data) == {}, old(destination).Some?);
        && (errors != [] ==>
              && r.Ok? && status == "Error: " + Join(errors, " ")
              && errorDialog == Some(ErrorDialog("Submission Error", Join(errors, "\n")))
              && unchanged(table) && api.adjustments == old(api.adjustments))
        && (errors == [] ==>
              && Elems(order) == old(table.data) && Distinct(order) && |items| == |order|
              && (forall i :: 0 <= i < |order| ==> items[i] == order[i].cached)
              && (r.Ok? <==> WholeQuantities(items))
              && errorDialog == old(errorDialog))
        && (errors == [] && r.Ok? ==>
              && status == TransferredStatus(|old(table.data)|, old(destination).value.name)
              && api.adjustments == old(api.adjustments) + [Adjustment("transfer", Payload(items), old(destination).value.pk)]
              && table.data == {} && table.rowKeys == [] && table.cells == [] && table.cursorRow == 0
              && table.columns == old(table.columns) && table.labels == old(table.labels)
              && table.sortColumnKey == old(table.sortColumnKey))
        && (r.Err? ==>
              && r.error == NotImplementedError(PartialTransferMessage)
              && status == old(status) && unchanged(table) && api.adjustments == old(api.adjustments))
      ensures buttonId == "cancel_button" ==>
        && r.Ok? && status == old(status) && errorDialog == old(errorDialog)
        && api.adjustments == old(api.adjustments)
        && table.data == {} && table.rowKeys == [] && table.cells == [] && table.cursorRow == 0
        && table.columns == old(table.columns) && table.labels == old(table.labels)
        && table.sortColumnKey == old(table.sortColumnKey)
      ensures buttonId != "done_button" && buttonId != "cancel_button" ==>
        && r.Ok? && unchanged(table) && status == old(status) && errorDialog == old(errorDialog)
        && api.adjustments == old(api.adjustments)
      ensures r.Ok? ==> table.Valid() && table.Synced()
    {
      if buttonId == "done_button" {
        var errors: seq<string> := [];
        if |table.data| == 0 {
          errors := errors + [NoItemsMessage];
        }
        if destination.None? {
          errors := errors + [NoDestinationMessage];
        }
        if |errors| > 0 {
          errorDialog := Some(ErrorDialog("Submission Error", Join(errors, "\n")));
          status := "Error: " + Join(errors, " ");
          return Ok(()), [], [];
        }
        var scanned;
        scanned, order := ScannedItems();
        items := scanned;
        r := Transfer(scanned);
        return;
      } else if buttonId == "cancel_button" {
        table.ClearData();
      }
      return Ok(()), [], [];
    }
  }
}
