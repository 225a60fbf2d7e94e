/**
 * The row objects of inventree_tui/api/__init__.py: the cached stock item a row wraps, the two row
 * classes with their guarded quantity update, building a row from keyword values (pydantic's lax
 * validation, reduced to the four fields of the stock item row), and `transfer_items`.
 */
module ApiRows {
  import opened Common
  import opened ApiFields

  /** The remote stock item as cached by the client; its own module is not part of this model. */
  class CachedStockItem {
    var pk: int
    var quantity: int
    var originalQuantity: int
    var partName: Option<string>
    var locationName: string
    var defaultLocationName: string

    constructor (pk: int, quantity: int, originalQuantity: int, partName: Option<string>,
                 locationName: string, defaultLocationName: string)
      ensures this.pk == pk && this.quantity == quantity && this.originalQuantity == originalQuantity
      ensures this.partName == partName && this.locationName == locationName
      ensures this.defaultLocationName == defaultLocationName
    {
      this.pk := pk;
      this.quantity := quantity;
      this.originalQuantity := originalQuantity;
      this.partName := partName;
      this.locationName := locationName;
      this.defaultLocationName := defaultLocationName;
    }
  }

  /** The four declared fields of a stock item row, as `dict()` and the constructor see them. */
  datatype StockRowValues = StockRowValues(stockNumber: int, partName: string, quantity: int, currentLocation: string)

  /** `dict()` of a stock item row: one entry per declared field. */
  function StockRowDict(v: StockRowValues): (d: map<string, Value>)
    ensures d.Keys == Elems(StockItemColumns)
  {
    map["stock_number" := IntV(v.stockNumber), "part_name" := StrV(v.partName),
        "quantity" := IntV(v.quantity), "current_location" := StrV(v.currentLocation)]
  }

  const FieldRequired: string := "Field required"
  const IntParsing: string := "Input should be a valid integer, unable to parse string as an integer"
  const StringType: string := "Input should be a valid string"
  const FieldIsFrozen: string := "Field is frozen"

  /** Lax validation of an int field: an int, or a string holding a decimal integer. */
  function IntField(values: map<string, Value>, name: string): Result<int>
  {
    if name !in values then Err(ValidationError([FieldRequired]))
    else match values[name]
      case IntV(i) => Ok(i)
      case StrV(s) =>
        var n := ParseInt(s);
        if n.Some? then Ok(n.value) else Err(ValidationError([IntParsing]))
  }

  /** Validation of a str field: only a string is accepted. */
  function StrField(values: map<string, Value>, name: string): Result<string>
  {
    if name !in values then Err(ValidationError([FieldRequired]))
    else match values[name]
      case StrV(s) => Ok(s)
      case IntV(_) => Err(ValidationError([StringType]))
  }

  function Messages<T>(r: Result<T>): seq<string>
  {
    if r.Err? && r.error.ValidationError? then r.error.messages else []
  }

  /**
   * Building a stock item row from keyword values: every field is validated and the messages of
   * all failing fields are reported together, in field order.
   */
  function ValidateStockRow(values: map<string, Value>): (r: Result<StockRowValues>)
    ensures r.Ok? <==> IntField(values, "stock_number").Ok? && StrField(values, "part_name").Ok?
                       && IntField(values, "quantity").Ok? && StrField(values, "current_location").Ok?
    ensures r.Err? ==> r.error.ValidationError? && r.error.messages != []
  {
    var sn := IntField(values, "stock_number");
    var pn := StrField(values, "part_name");
    var q := IntField(values, "quantity");
    var cl := StrField(values, "current_location");
    if sn.Ok? && pn.Ok? && q.Ok? && cl.Ok? then
      Ok(StockRowValues(sn.value, pn.value, q.value, cl.value))
    else
      Err(ValidationError(Messages(sn) + Messages(pn) + Messages(q) + Messages(cl)))
  }

  /** A row's own `dict()` validates back to the same row. */
  lemma ValidateDictRoundTrip(v: StockRowValues)
    ensures ValidateStockRow(StockRowDict(v)) == Ok(v)
  {
  }

  /** Overriding the quantity with the decimal text of an integer yields that quantity. */
  lemma ValidateEditedQuantity(v: StockRowValues, q: int)
    ensures ValidateStockRow(StockRowDict(v)["quantity" := StrV(IntString(q))]) == Ok(v.(quantity := q))
  {
    ParseIntString(q);
  }

  /** Quantity text that is not a decimal integer is rejected with pydantic's int-parsing message alone. */
  lemma ValidateBadQuantity(v: StockRowValues, text: string)
    requires ParseInt(text).None?
    ensures ValidateStockRow(StockRowDict(v)["quantity" := StrV(text)]) == Err(ValidationError([IntParsing]))
  {
  }

  /** The constructor's positional parameter. */
  const InitParameter: string := "cached_stock_item"
  const MissingInitArgument: string := "CachedStockItemRow.__init__() missing 1 required positional argument: 'cached_stock_item'"
  const DuplicateInitArgument: string := "CachedStockItemRow.__init__() got multiple values for argument 'cached_stock_item'"

  /**
   * Calling `CachedStockItemRow(**values)` (passNone false) or `CachedStockItemRow(None, **values)`
   * (passNone true): Python binds `cached_stock_item` first; only a None argument reaches the
   * keyword branch that validates the values.
   */
  function CallRowInit(passNone: bool, values: map<string, Value>): Result<StockRowValues>
  {
    if passNone then
      if InitParameter in values then Err(TypeError(DuplicateInitArgument)) else ValidateStockRow(values)
    else
      if InitParameter in values then
        Err(AttributeError("'" + (if values[InitParameter].IntV? then "int" else "str") + "' object has no attribute '_stock_item'"))
      else Err(TypeError(MissingInitArgument))
  }

  /** Message of the ValueError raised for a quantity above the original stock quantity. */
  function GreaterMessage(originalQuantity: int): string
  {
    "Quantity is greater than the original stock quantity (" + IntString(originalQuantity) + ")"
  }

  /**
   * Outcome of `update(other, validate, allow_greater)` for a model with the given fields: the
   * optional check against the original quantity, then the assignment to `quantity`, which
   * pydantic refuses when that field is frozen.
   */
  function UpdateResult(fields: seq<FieldInfo>, newQuantity: int, originalQuantity: int,
                        validate: bool, allowGreater: bool): Result<bool>
  {
    if validate && !allowGreater && newQuantity > originalQuantity then
      Err(ValueError(GreaterMessage(originalQuantity)))
    else if FieldFrozen(fields, "quantity") then
      Err(ValidationError([FieldIsFrozen]))
    else
      Ok(true)
  }

  /** On the stock item row an update fails exactly when it is validated, not allowed greater, and above the original quantity. */
  lemma StockItemUpdateAccepted(newQuantity: int, originalQuantity: int, validate: bool, allowGreater: bool)
    ensures var r := UpdateResult(StockItemRowFields, newQuantity, originalQuantity, validate, allowGreater);
            (r.Ok? <==> !(validate && !allowGreater && newQuantity > originalQuantity))
            && (r.Ok? ==> r.value)
            && (r.Err? ==> r.error == ValueError(GreaterMessage(originalQuantity)))
  {
    assert !FieldFrozen(StockItemRowFields, "quantity") by {
      assert StockItemRowFields[2].name == "quantity" && !StockItemRowFields[2].frozen;
      assert StockItemRowFields[0].name != "quantity" && StockItemRowFields[1].name != "quantity";
    }
  }

  /** On the check-in row the quantity is frozen, so an update never succeeds. */
  lemma CheckInUpdateRefused(newQuantity: int, originalQuantity: int, validate: bool, allowGreater: bool)
    ensures UpdateResult(CheckInRowFields, newQuantity, originalQuantity, validate, allowGreater).Err?
  {
    assert CheckInRowFields[2].name == "quantity" && CheckInRowFields[2].frozen;
    assert CheckInRowFields[0].name != "quantity" && CheckInRowFields[1].name != "quantity";
  }

  /** A validated update that is not allowed to grow never sets a quantity above the original one. */
  lemma ValidatedUpdateWithinStock(fields: seq<FieldInfo>, newQuantity: int, originalQuantity: int)
    requires UpdateResult(fields, newQuantity, originalQuantity, true, false).Ok?
    ensures newQuantity <= originalQuantity
  {
  }

  /** `CachedStockItemRow`: the transfer table's row; `cached` is its `item`. */
  class CachedStockItemRow {
    var stockNumber: int
    var partName: string
    var quantity: int
    var currentLocation: string
    var cached: CachedStockItem?

    /** The row built from a scanned item (a missing part name fails str validation, excluded here). */
    constructor FromItem(item: CachedStockItem)
      requires item.partName.Some?
      ensures Values() == StockRowValues(item.pk, item.partName.value, item.quantity, item.locationName)
      ensures cached == item
    {
      stockNumber := item.pk;
      partName := item.partName.value;
      quantity := item.quantity;
      currentLocation := item.locationName;
      cached := item;
    }

    /** The row built from validated keyword values: no cached item behind it. */
    constructor FromValues(v: StockRowValues)
      ensures Values() == v && cached == null
    {
      stockNumber := v.stockNumber;
      partName := v.partName;
      quantity := v.quantity;
      currentLocation := v.currentLocation;
      cached := null;
    }

    function Values(): StockRowValues
      reads this
    {
      StockRowValues(stockNumber, partName, quantity, currentLocation)
    }

    /** `getattr(row, name)` for a declared field. */
    function Attr(name: string): Value
      reads this
      requires name in StockItemColumns
    {
      if name == "stock_number" then IntV(stockNumber)
      else if name == "part_name" then StrV(partName)
      else if name == "quantity" then IntV(quantity)
      else StrV(currentLocation)
    }

    /** `update(other, validate, allow_greater)`; only `other.quantity` is read. */
    method Update(otherQuantity: int, validate: bool, allowGreater: bool) returns (r: Result<bool>)
      requires cached != null
      modifies this`quantity, cached`quantity
      ensures r == UpdateResult(StockItemRowFields, otherQuantity, cached.originalQuantity, validate, allowGreater)
      ensures r.Ok? ==> quantity == otherQuantity && cached.quantity == otherQuantity
      ensures r.Err? ==> quantity == old(quantity) && cached.quantity == old(cached.quantity)
    {
      if validate {
        var oq := cached.originalQuantity;
        if !allowGreater && otherQuantity > oq {
          return Err(ValueError(GreaterMessage(oq)));
        }
      }
      if FieldFrozen(StockItemRowFields, "quantity") {
        return Err(ValidationError([FieldIsFrozen]));
      }
      quantity := otherQuantity;
      cached.quantity := otherQuantity;
      return Ok(true);
    }
  }

  /** `getattr` and `dict()` agree on every declared field. */
  lemma AttrMatchesDict(row: CachedStockItemRow, name: string)
    requires name in StockItemColumns
    ensures row.Attr(name) == StockRowDict(row.Values())[name]
  {
  }

  /** `CachedStockItemCheckInRow`: a row whose fields are all frozen. */
  class CachedStockItemCheckInRow {
    var stockNumber: int
    var partName: string
    var quantity: int
    var previousLocation: string
    var newLocation: string
    var timestamp: int
    var cached: CachedStockItem?

    /** The row built from a checked-in item; `now` stands for the clock reading. */
    constructor FromItem(item: CachedStockItem, now: int)
      ensures stockNumber == item.pk && quantity == item.quantity
      ensures partName == (if item.partName.None? then "UNKNOWN" else item.partName.value)
      ensures previousLocation == item.locationName && newLocation == item.defaultLocationName
      ensures timestamp == now && cached == item
    {
      stockNumber := item.pk;
      partName := if item.partName.None? then "UNKNOWN" else item.partName.value;
      quantity := item.quantity;
      previousLocation := item.locationName;
      newLocation := item.defaultLocationName;
      timestamp := now;
      cached := item;
    }

    /**
     * `update(other, validate, allow_greater)`: the same code as the stock item row, but the
     * assignment to the frozen quantity raises, before the cached item is touched.
     */
    method Update(otherQuantity: int, validate: bool, allowGreater: bool) returns (r: Result<bool>)
      requires cached != null
      modifies this`quantity, cached`quantity
      ensures r == UpdateResult(CheckInRowFields, otherQuantity, cached.originalQuantity, validate, allowGreater)
      ensures r.Err?
      ensures quantity == old(quantity) && cached.quantity == old(cached.quantity)
    {
      CheckInUpdateRefused(otherQuantity, cached.originalQuantity, validate, allowGreater);
      if validate {
        var oq := cached.originalQuantity;
        if !allowGreater && otherQuantity > oq {
          return Err(ValueError(GreaterMessage(oq)));
        }
      }
      // `self.quantity = other.quantity` on a frozen field
      return Err(ValidationError([FieldIsFrozen]));
    }
  }

  /** One `{"pk": ..., "quantity": ...}` entry of a transfer request. */
  datatype TransferEntry = TransferEntry(pk: int, quantity: int)

  /** A stock location, as far as a transfer needs it. */
  datatype StockLocation = StockLocation(pk: int, name: string)

  /** One call of `StockItem.adjustStockItems`. */
  datatype Adjustment = Adjustment(action: string, items: seq<TransferEntry>, location: int)

  /** The remote API: each adjustment it receives is recorded, nothing else is modelled. */
  class StockApi {
    var adjustments: seq<Adjustment>

    constructor ()
      ensures adjustments == []
    {
      adjustments := [];
    }

    method AdjustStockItems(action: string, items: seq<TransferEntry>, location: int)
      modifies this
      ensures adjustments == old(adjustments) + [Adjustment(action, items, location)]
    {
      adjustments := adjustments + [Adjustment(action, items, location)];
    }
  }

  const PartialTransferMessage: string := "Quantity other that 'ALL' not implemented (yet)"

  /** All items are moved whole: the quantity to move is the original quantity. */
  ghost predicate WholeQuantities(items: seq<CachedStockItem>)
    reads items
  {
    forall i :: 0 <= i < |items| ==> items[i].quantity == items[i].originalQuantity
  }

  /** The request body `transfer_items` builds: one entry per item, in input order. */
  function Payload(items: seq<CachedStockItem>): (p: seq<TransferEntry>)
    reads items
    ensures |p| == |items|
    ensures forall i :: 0 <= i < |items| ==> p[i] == TransferEntry(items[i].pk, items[i].quantity)
  {
    if items == [] then [] else [TransferEntry(items[0].pk, items[0].quantity)] + Payload(items[1..])
  }

  /**
   * The loop of `transfer_items`: one entry per item, in input order, refused as a whole with
   * NotImplementedError as soon as an item's quantity differs from its original quantity.
   */
  method TransferPayload(items: seq<CachedStockItem>) returns (r: Result<seq<TransferEntry>>)
    ensures r.Ok? <==> WholeQuantities(items)
    ensures r.Ok? ==> |r.value| == |items|
    ensures r.Ok? ==> forall i :: 0 <= i < |items| ==> r.value[i] == TransferEntry(items[i].pk, items[i].quantity)
    ensures r.Err? ==> r.error == NotImplementedError(PartialTransferMessage)
  {
    var entries: seq<TransferEntry> := [];
    var i := 0;
    while i < |items|
      invariant 0 <= i <= |items|
      invariant |entries| == i
      invariant forall k :: 0 <= k < i ==> entries[k] == TransferEntry(items[k].pk, items[k].quantity)
      invariant forall k :: 0 <= k < i ==> items[k].quantity == items[k].originalQuantity
    {
      var item := items[i];
      entries := entries + [TransferEntry(item.pk, item.quantity)];
      if item.quantity != item.originalQuantity {
        return Err(NotImplementedError(PartialTransferMessage));
      }
      i := i + 1;
    }
    return Ok(entries);
  }

  /** `transfer_items`: the API receives the payload only when every item moves whole. */
  method TransferItems(items: seq<CachedStockItem>, location: StockLocation, api: StockApi) returns (r: Result<()>)
    modifies api
    ensures r.Ok? <==> WholeQuantities(items)
    ensures r.Err? ==> r.error == NotImplementedError(PartialTransferMessage) && api.adjustments == old(api.adjustments)
    ensures r.Ok? ==> api.adjustments == old(api.adjustments) + [Adjustment("transfer", Payload(items), location.pk)]
  {
    var payload := TransferPayload(items);
    if payload.Err? {
      return Err(payload.error);
    }
    assert payload.value == Payload(items);
    api.AdjustStockItems("transfer", payload.value, location.pk);
    return Ok(());
  }
}
