/**
 * Field metadata of the row models (inventree_tui/api/__init__.py): the ordered field tables of
 * the two row models, the names listed as table columns or offered for editing, the column
 * headings, the dialog title, and pydantic's rule that a frozen field cannot be assigned.
 */
module ApiFields {
  import opened Common

  /** A field's `alias`: absent, a string, or some other (non-string) object. */
  datatype Alias = NoAlias | StringAlias(name: string) | OtherAlias

  /** One entry of a model's `model_fields`, in declaration order. */
  datatype FieldInfo = FieldInfo(name: string, alias: Alias, frozen: bool)

  /** The name `get_field_names` lists a field under: its alias when aliases are asked for and the alias is a string. */
  function ListedName(f: FieldInfo, byAlias: bool): string
  {
    if byAlias && f.alias.StringAlias? then f.alias.name else f.name
  }

  /** `get_field_names`: one name per field, in field order. */
  function FieldNames(fields: seq<FieldInfo>, byAlias: bool): (r: seq<string>)
    ensures |r| == |fields|
    ensures forall i :: 0 <= i < |fields| ==> r[i] == ListedName(fields[i], byAlias)
  {
    if fields == [] then [] else [ListedName(fields[0], byAlias)] + FieldNames(fields[1..], byAlias)
  }

  /**
   * Whether `get_editable_fields` lists a field: it is not frozen and the name it would be listed
   * under is a string (a non-string alias, taken when aliases are asked for, is skipped).
   */
  predicate Editable(f: FieldInfo, byAlias: bool)
  {
    !f.frozen && !(byAlias && f.alias.OtherAlias?)
  }

  /** `get_editable_fields`: the listed names of the editable fields, in field order. */
  function EditableFields(fields: seq<FieldInfo>, byAlias: bool): (r: seq<string>)
    ensures |r| <= |fields|
    ensures forall i :: 0 <= i < |fields| && Editable(fields[i], byAlias) ==> ListedName(fields[i], byAlias) in r
  {
    if fields == [] then []
    else
      var first := if Editable(fields[0], byAlias) then [ListedName(fields[0], byAlias)] else [];
      first + EditableFields(fields[1..], byAlias)
  }

  /** The editable fields themselves, in field order. */
  function EditableOnly(fields: seq<FieldInfo>, byAlias: bool): (r: seq<FieldInfo>)
    ensures |r| <= |fields|
    ensures forall i :: 0 <= i < |r| ==> r[i] in fields && Editable(r[i], byAlias)
  {
    if fields == [] then []
    else (if Editable(fields[0], byAlias) then [fields[0]] else []) + EditableOnly(fields[1..], byAlias)
  }

  /** `get_editable_fields` lists exactly the listed names of the editable fields, in field order, repeats included. */
  lemma {:induction false} EditableFieldsAreEditableNames(fields: seq<FieldInfo>, byAlias: bool)
    ensures EditableFields(fields, byAlias) == FieldNames(EditableOnly(fields, byAlias), byAlias)
  {
    if fields != [] {
      EditableFieldsAreEditableNames(fields[1..], byAlias);
      var rest := EditableOnly(fields[1..], byAlias);
      if Editable(fields[0], byAlias) {
        var all := [fields[0]] + rest;
        assert all[0] == fields[0] && all[1..] == rest;
        assert FieldNames(all, byAlias) == [ListedName(fields[0], byAlias)] + FieldNames(rest, byAlias);
      } else {
        assert EditableOnly(fields, byAlias) == rest;
      }
    }
  }

  /** `a` can be obtained from `b` by dropping elements. */
  predicate IsSubsequence<T(==)>(a: seq<T>, b: seq<T>)
    decreases |b|
  {
    if b == [] then a == []
    else (a != [] && a[0] == b[0] && IsSubsequence(a[1..], b[1..])) || IsSubsequence(a, b[1..])
  }

  /** The editable names are a subsequence of the listed names: same order, nothing invented. */
  lemma {:induction false} EditableFieldsSubsequence(fields: seq<FieldInfo>, byAlias: bool)
    ensures IsSubsequence(EditableFields(fields, byAlias), FieldNames(fields, byAlias))
  {
    if fields != [] {
      var rest := EditableFields(fields[1..], byAlias);
      var names := FieldNames(fields, byAlias);
      EditableFieldsSubsequence(fields[1..], byAlias);
      assert names[1..] == FieldNames(fields[1..], byAlias);
      if Editable(fields[0], byAlias) {
        assert EditableFields(fields, byAlias) == [names[0]] + rest;
      } else {
        assert EditableFields(fields, byAlias) == rest;
      }
    }
  }

  /** A name is offered for editing exactly when some editable field is listed under it. */
  lemma {:induction false} EditableFieldsMembership(fields: seq<FieldInfo>, byAlias: bool, x: string)
    ensures x in EditableFields(fields, byAlias)
      <==> exists i :: 0 <= i < |fields| && Editable(fields[i], byAlias) && ListedName(fields[i], byAlias) == x
  {
    if fields != [] {
      EditableFieldsMembership(fields[1..], byAlias, x);
      if x in EditableFields(fields[1..], byAlias) {
        var i :| 0 <= i < |fields[1..]| && Editable(fields[1..][i], byAlias) && ListedName(fields[1..][i], byAlias) == x;
        assert fields[i + 1] == fields[1..][i];
      }
      if exists i :: 0 <= i < |fields| && Editable(fields[i], byAlias) && ListedName(fields[i], byAlias) == x {
        var i :| 0 <= i < |fields| && Editable(fields[i], byAlias) && ListedName(fields[i], byAlias) == x;
        if i > 0 {
          assert fields[1..][i - 1] == fields[i];
        }
      }
    }
  }

  /** A model whose fields are all frozen offers nothing for editing. */
  lemma {:induction false} AllFrozenNoneEditable(fields: seq<FieldInfo>, byAlias: bool)
    requires forall i :: 0 <= i < |fields| ==> fields[i].frozen
    ensures EditableFields(fields, byAlias) == []
  {
    if fields != [] {
      AllFrozenNoneEditable(fields[1..], byAlias);
    }
  }

  /** Without aliases, asking for aliased names changes nothing. */
  lemma {:induction false} UnaliasedNames(fields: seq<FieldInfo>)
    requires forall i :: 0 <= i < |fields| ==> fields[i].alias.NoAlias?
    ensures FieldNames(fields, true) == FieldNames(fields, false)
  {
  }

  /** `CachedStockItemRowModel`: only the quantity can be edited. */
  const StockItemRowFields: seq<FieldInfo> := [
    FieldInfo("stock_number", NoAlias, true),
    FieldInfo("part_name", NoAlias, true),
    FieldInfo("quantity", NoAlias, false),
    FieldInfo("current_location", NoAlias, true)
  ]

  /** `CachedStockItemCheckInRowModel`: every field is frozen. */
  const CheckInRowFields: seq<FieldInfo> := [
    FieldInfo("stock_number", NoAlias, true),
    FieldInfo("part_name", NoAlias, true),
    FieldInfo("quantity", NoAlias, true),
    FieldInfo("previous_location", NoAlias, true),
    FieldInfo("new_location", NoAlias, true),
    FieldInfo("timestamp", NoAlias, true)
  ]

  /** The column keys of the stock item row: its field names, which carry no alias. */
  const StockItemColumns: seq<string> := ["stock_number", "part_name", "quantity", "current_location"]

  lemma StockItemRowEditable()
    ensures EditableFields(StockItemRowFields, true) == ["quantity"]
    ensures FieldNames(StockItemRowFields, true) == FieldNames(StockItemRowFields, false) == StockItemColumns
  {
    UnaliasedNames(StockItemRowFields);
    var f := StockItemRowFields;
    assert EditableFields(f[3..], true) == [] by {
      AllFrozenNoneEditable(f[3..], true);
    }
    assert f[2..][1..] == f[3..];
    assert EditableFields(f[2..], true) == ["quantity"];
    assert f[1..][1..] == f[2..];
    assert f[0..][1..] == f[1..];
  }

  /** Every editable name of the stock item row is one of its columns. */
  lemma StockItemEditableAreColumns()
    ensures forall i :: 0 <= i < |EditableFields(StockItemRowFields, true)| ==>
      EditableFields(StockItemRowFields, true)[i] in StockItemColumns
  {
    StockItemRowEditable();
  }

  lemma CheckInRowEditable()
    ensures EditableFields(CheckInRowFields, true) == []
    ensures EditableFields(CheckInRowFields, false) == []
  {
    AllFrozenNoneEditable(CheckInRowFields, true);
    AllFrozenNoneEditable(CheckInRowFields, false);
  }

  /** pydantic refuses an assignment to a declared field that is frozen; other names are not checked. */
  function FieldFrozen(fields: seq<FieldInfo>, name: string): (r: bool)
    ensures r <==> (exists i :: 0 <= i < |fields| && fields[i].name == name && fields[i].frozen &&
                               forall j :: 0 <= j < i ==> fields[j].name != name)
  {
    if fields == [] then false
    else if fields[0].name == name then fields[0].frozen
    else
      var r := FieldFrozen(fields[1..], name);
      assert r ==> (exists i :: 0 <= i < |fields| && fields[i].name == name && fields[i].frozen &&
                                 forall j :: 0 <= j < i ==> fields[j].name != name) by {
        if r {
          var i :| 0 <= i < |fields[1..]| && fields[1..][i].name == name && fields[1..][i].frozen &&
                   forall j :: 0 <= j < i ==> fields[1..][j].name != name;
          assert forall j :: 0 <= j < i + 1 ==> fields[j].name != name by {
            forall j | 0 <= j < i + 1 ensures fields[j].name != name {
              if j > 0 { assert fields[j] == fields[1..][j - 1]; }
            }
          }
        }
      }
      r
  }

  /** `CachedStockItemRowModel.field_display_name`; a key outside the table raises KeyError (None). */
  function StockItemDisplayName(field: string): (r: Option<string>)
    ensures r.Some? <==> field in StockItemColumns
  {
    if field == "stock_number" then Some("Stock Number")
    else if field == "part_name" then Some("Part Name")
    else if field == "quantity" then Some("Quantity")
    else if field == "current_location" then Some("Current Location")
    else None
  }

  /** `CachedStockItemCheckInRowModel.field_display_name`; a key outside the table raises KeyError (None). */
  function CheckInDisplayName(field: string): (r: Option<string>)
    ensures r.Some? <==> field in FieldNames(CheckInRowFields, false)
  {
    var names := FieldNames(CheckInRowFields, false);
    assert names == ["stock_number", "part_name", "quantity", "previous_location", "new_location", "timestamp"];
    if field == "stock_number" then Some("Stock#")
    else if field == "part_name" then Some("Part Name")
    else if field == "quantity" then Some("Q")
    else if field == "previous_location" then Some("Prev Loc")
    else if field == "new_location" then Some("New Loc")
    else if field == "timestamp" then Some("Check-In Timestamp")
    else None
  }

  /** `title_name` of both row models: "Stock #" then the stock number, which can be read back. */
  function TitleName(stockNumber: int): (r: string)
    ensures |r| > 7 && r[..7] == "Stock #"
    ensures ParseInt(r[7..]) == Some(stockNumber)
  {
    ParseIntString(stockNumber);
    var r := "Stock #" + IntString(stockNumber);
    assert r[7..] == IntString(stockNumber);
    r
  }
}
