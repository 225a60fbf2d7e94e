/**
 * `ModelDataTable` of inventree_tui/app.py: a set of row objects (`data`) kept in step with the
 * rows of a grid. The grid is its ordered row keys, the cells of each row in the same order,
 * and a cursor row; the operations the grid widget offers (append a row, remove a row, update a
 * cell, move the cursor) are the small methods at the end of the class.
 */
module AppTable {
  import opened Common
  import opened ApiFields
  import opened ApiRows

  /** The grid widget keeps its cursor on a row: 0 when there is none, otherwise clamped into range. */
  function ClampRow(row: int, count: nat): (r: nat)
    ensures count == 0 ==> r == 0
    ensures count > 0 ==> r < count
    ensures 0 <= row < count ==> r == row
    ensures row < 0 ==> r == 0
    ensures count > 0 && row >= count ==> r == count - 1
  {
    if count == 0 || row <= 0 then 0 else if row >= count then count - 1 else row
  }

  /** Clamping again into a range no larger than the first is the same as clamping once. */
  lemma ClampTwice(row: int, n: nat, m: nat)
    requires m <= n
    ensures ClampRow(ClampRow(row, n), m) == ClampRow(row, m)
  {
  }

  /** The error message of a sort column that is not a column. */
  function SortColumnMessage(options: seq<string>): string
  {
    "Not a valid sort column, options are [" + Join(Quoted(options), ", ") + "]"
  }

  function Quoted(names: seq<string>): seq<string>
  {
    if names == [] then [] else ["'" + names[0] + "'"] + Quoted(names[1..])
  }

  /** The sort column check of `__init__`: None or one of the aliased field names. */
  function SortColumnCheck(fields: seq<FieldInfo>, sortColumnKey: Option<string>): (r: Result<()>)
    ensures r.Ok? <==> sortColumnKey.None? || sortColumnKey.value in FieldNames(fields, true)
    ensures r.Err? ==> r.error == Exception(SortColumnMessage(FieldNames(fields, true)))
  {
    if sortColumnKey.Some? && sortColumnKey.value !in FieldNames(fields, true) then
      Err(Exception(SortColumnMessage(FieldNames(fields, true))))
    else
      Ok(())
  }

  /** The transfer tab sorts on "part_name", which the stock item row declares; an unknown key is refused. */
  lemma TransferTableSortColumn()
    ensures SortColumnCheck(StockItemRowFields, Some("part_name")).Ok?
    ensures SortColumnCheck(StockItemRowFields, None).Ok?
    ensures SortColumnCheck(StockItemRowFields, Some("location")).Err?
  {
    StockItemRowEditable();
  }

  /** Cells of a new row, column by column: the row object's attribute under each column key. */
  function RowCells(obj: CachedStockItemRow): (r: seq<Value>)
    reads obj
    ensures |r| == |StockItemColumns|
    ensures forall j :: 0 <= j < |r| ==> r[j] == obj.Attr(StockItemColumns[j])
  {
    [IntV(obj.stockNumber), StrV(obj.partName), IntV(obj.quantity), StrV(obj.currentLocation)]
  }

  /** The column headings: each column key's display name. */
  function ColumnLabels(keys: seq<string>): (r: seq<string>)
    requires forall i :: 0 <= i < |keys| ==> keys[i] in StockItemColumns
    ensures |r| == |keys|
    ensures forall i :: 0 <= i < |keys| ==> Some(r[i]) == StockItemDisplayName(keys[i])
  {
    if keys == [] then [] else [StockItemDisplayName(keys[0]).value] + ColumnLabels(keys[1..])
  }

  lemma StockItemLabels()
    ensures ColumnLabels(StockItemColumns) == ["Stock Number", "Part Name", "Quantity", "Current Location"]
  {
    var r := ColumnLabels(StockItemColumns);
    assert r[0] == "Stock Number" && r[1] == "Part Name";
    assert r[2] == "Quantity" && r[3] == "Current Location";
  }

  /**
   * A table over `CachedStockItemRow` objects (the only model class the application shows in one).
   * `rowKeys` are the grid's rows in display order and `cells[i][j]` is the cell of row `i` under
   * column `j`.
   */
  class ModelDataTable {
    var data: set<CachedStockItemRow>
    var sortColumnKey: Option<string>
    var columns: seq<string>
    var labels: seq<string>
    var rowKeys: seq<CachedStockItemRow>
    var cells: seq<seq<Value>>
    var cursorRow: nat

    /** The grid is well formed: distinct rows, one cell per column in each row, cursor in range. */
    ghost predicate Valid()
      reads this
    {
      && columns == StockItemColumns
      && Distinct(rowKeys)
      && |cells| == |rowKeys|
      && (forall i :: 0 <= i < |cells| ==> |cells[i]| == |columns|)
      && cursorRow == ClampRow(cursorRow, |rowKeys|)
    }

    /** The rows of the grid are exactly the objects of `data`. */
    ghost predicate Synced()
      reads this
    {
      Elems(rowKeys) == data
    }

    /** Every cell shows the attribute of its row object named by its column. */
    ghost predicate CellsCurrent()
      reads this, rowKeys
      requires Valid()
    {
      forall i, j :: 0 <= i < |rowKeys| && 0 <= j < |columns| ==> cells[i][j] == rowKeys[i].Attr(columns[j])
    }

    /**
     * `__init__` followed by `on_mount`: the sort column was accepted, one column per aliased field
     * name headed by its display name, no rows.
     */
    constructor (sortColumnKey: Option<string>)
      requires SortColumnCheck(StockItemRowFields, sortColumnKey).Ok?
      ensures Valid() && Synced() && CellsCurrent()
      ensures data == {} && rowKeys == [] && cursorRow == 0
      ensures this.sortColumnKey == sortColumnKey
      ensures labels == ["Stock Number", "Part Name", "Quantity", "Current Location"]
    {
      StockItemLabels();
      this.sortColumnKey := sortColumnKey;
      data := {};
      columns := StockItemColumns;
      labels := ColumnLabels(StockItemColumns);
      rowKeys := [];
      cells := [];
      cursorRow := 0;
    }

    /** `add_item`: an object already present changes nothing; a new one gets a row at the end. */
    method AddItem(item: CachedStockItemRow)
      requires Valid() && Synced()
      modifies this
      ensures Valid() && Synced()
      ensures old(item in data) ==> data == old(data) && rowKeys == old(rowKeys) && cells == old(cells)
      ensures !old(item in data) ==> data == old(data) + {item} && rowKeys == old(rowKeys) + [item] && CellsCurrent()
      ensures cursorRow == old(cursorRow)
      ensures columns == old(columns) && labels == old(labels) && sortColumnKey == old(sortColumnKey)
    {
      if item in data {
        return;
      }
      data := data + {item};
      ghost var before := rowKeys;
      Update();
      KeepAll(before, data);
      DistinctSingleton(rowKeys[|before|..], item);
      assert rowKeys == rowKeys[..|before|] + rowKeys[|before|..];
    }

    /** `clear_data`: the empty set is assigned and its watcher runs `update`, removing every row. */
    method ClearData()
      requires Valid()
      modifies this
      ensures Valid() && Synced() && CellsCurrent()
      ensures data == {} && rowKeys == [] && cells == [] && cursorRow == 0
      ensures columns == old(columns) && labels == old(labels) && sortColumnKey == old(sortColumnKey)
    {
      data := {};
      Update();
      if rowKeys != [] {
        ElemsAt(rowKeys, 0);
        assert false;
      }
    }

    /**
     * `on_key`: the delete key on a non-empty table removes the object under the cursor and moves
     * the cursor one row up; any other key, or an empty table, changes nothing.
     */
    method OnKey(keyName: string)
      requires Valid() && Synced()
      modifies this
      ensures Valid() && Synced()
      ensures keyName != "delete" || old(data) == {} ==>
        data == old(data) && rowKeys == old(rowKeys) && cells == old(cells) && cursorRow == old(cursorRow)
      ensures keyName == "delete" && old(data) != {} ==>
        var removed := old(rowKeys)[old(cursorRow)];
        && data == old(data) - {removed}
        && rowKeys == Without(old(rowKeys), removed)
        && cursorRow == (if old(cursorRow) == 0 then 0 else old(cursorRow) - 1)
        && CellsCurrent()
      ensures columns == old(columns) && labels == old(labels) && sortColumnKey == old(sortColumnKey)
    {
      if keyName == "delete" && |data| > 0 {
        var row := rowKeys[cursorRow];
        data := data - {row};
        MoveCursor(cursorRow - 1);
        ghost var before := rowKeys;
        ghost var movedTo := cursorRow;
        Update();
        KeepAllBut(before, data, row);
        WithoutLength(before, row);
        ElemsEmpty(rowKeys[|Keep(before, data)|..]);
        assert rowKeys == Keep(before, data);
        ClampTwice(movedTo, |before|, |rowKeys|);
      }
    }

    /**
     * `update`: every object of `data` without a row gets one (appended), every row whose object
     * left `data` is removed, then every cell is rewritten from its object's attributes. Rows that
     * stay keep their order and are never added twice.
     */
    method Update()
      requires Valid()
      modifies this
      ensures Valid() && Synced() && CellsCurrent()
      ensures data == old(data) && columns == old(columns) && labels == old(labels)
      ensures sortColumnKey == old(sortColumnKey)
      ensures var kept := Keep(old(rowKeys), data);
        |kept| <= |rowKeys| && rowKeys[..|kept|] == kept
        && Elems(rowKeys[|kept|..]) == data - Elems(old(rowKeys))
      ensures cursorRow == ClampRow(old(cursorRow), |rowKeys|)
      ensures old(Synced()) ==> rowKeys == old(rowKeys) && cursorRow == old(cursorRow)
    {
      ghost var before := rowKeys;
      ghost var added := AddMissingRows();
      RemoveStaleRows();
      UpdatedRows(before, added, data);
      RefreshCells();
      if Elems(before) == data {
        KeepAll(before, data);
        ElemsEmpty(rowKeys[|before|..]);
        assert rowKeys == rowKeys[..|before|] + rowKeys[|before|..];
      }
    }

    /** First loop of `update`: a row is appended for each object of `data` that has none. */
    method AddMissingRows() returns (ghost added: seq<CachedStockItemRow>)
      requires Valid()
      modifies this
      ensures Valid()
      ensures rowKeys == old(rowKeys) + added
      ensures Elems(added) == data - Elems(old(rowKeys))
      ensures cells[..|old(cells)|] == old(cells)
      ensures forall i :: |old(rowKeys)| <= i < |rowKeys| ==> cells[i] == RowCells(rowKeys[i])
      ensures data == old(data) && columns == old(columns) && labels == old(labels)
      ensures sortColumnKey == old(sortColumnKey) && cursorRow == old(cursorRow)
    {
      ghost var before := rowKeys;
      added := [];
      var rest := data;
      while rest != {}
        invariant Valid() && data == old(data) && columns == old(columns)
        invariant labels == old(labels) && sortColumnKey == old(sortColumnKey)
        invariant rest <= data
        invariant rowKeys == before + added
        invariant cells[..|old(cells)|] == old(cells)
        invariant forall i :: |before| <= i < |rowKeys| ==> cells[i] == RowCells(rowKeys[i])
        invariant Elems(added) == (data - rest) - Elems(before)
        invariant cursorRow == old(cursorRow)
        decreases rest
      {
        var obj :| obj in rest;
        if obj !in rowKeys {
          AddRow(obj);
          added := added + [obj];
          assert Elems(added) == Elems(added[..|added| - 1]) + {obj};
        } else {
          assert obj !in Elems(added);
          assert obj in before;
        }
        rest := rest - {obj};
      }
    }

    /** Second loop of `update`: over a snapshot of the row keys, each row whose object left `data` is removed. */
    method RemoveStaleRows()
      requires Valid()
      modifies this
      ensures Valid()
      ensures rowKeys == Keep(old(rowKeys), data)
      ensures cells == KeepParallel(old(rowKeys), old(cells), data)
      ensures cursorRow == ClampRow(old(cursorRow), |rowKeys|)
      ensures data == old(data) && columns == old(columns) && labels == old(labels)
      ensures sortColumnKey == old(sortColumnKey)
    {
      var keys := rowKeys;
      ghost var snapshot := cells;
      var i := 0;
      while i < |keys|
        invariant 0 <= i <= |keys|
        invariant Valid() && data == old(data) && columns == old(columns)
        invariant labels == old(labels) && sortColumnKey == old(sortColumnKey)
        invariant rowKeys == Keep(keys[..i], data) + keys[i..]
        invariant cells == KeepParallel(keys[..i], snapshot[..i], data) + snapshot[i..]
        invariant cursorRow == ClampRow(old(cursorRow), |rowKeys|)
      {
        var key := keys[i];
        if key in data {
          KeptStep(keys, i, data);
          KeptCellsStep(keys, snapshot, i, data);
        } else {
          RemovedStep(keys, i, data);
          ghost var n := |rowKeys|;
          ghost var pre := rowKeys;
          ghost var preCells := cells;
          RemoveRow(key);
          ghost var j :| 0 <= j < |pre| && pre[j] == key && cells == preCells[..j] + preCells[j + 1..];
          RemovedCellsStep(keys, snapshot, i, data, pre, preCells, j);
          ClampTwice(old(cursorRow), n, |rowKeys|);
        }
        i := i + 1;
      }
      assert keys[..i] == keys;
      assert snapshot[..i] == snapshot;
    }

    /** Third loop of `update`: every cell of every row is set to its object's attribute. */
    method RefreshCells()
      requires Valid()
      modifies this
      ensures Valid() && CellsCurrent()
      ensures rowKeys == old(rowKeys) && cursorRow == old(cursorRow)
      ensures data == old(data) && columns == old(columns) && labels == old(labels)
      ensures sortColumnKey == old(sortColumnKey)
    {
      var r := 0;
      while r < |rowKeys|
        invariant 0 <= r <= |rowKeys|
        invariant Valid() && rowKeys == old(rowKeys) && cursorRow == old(cursorRow)
        invariant data == old(data) && columns == old(columns)
        invariant labels == old(labels) && sortColumnKey == old(sortColumnKey)
        invariant forall m, c :: 0 <= m < r && 0 <= c < |columns| ==> cells[m][c] == rowKeys[m].Attr(columns[c])
      {
        var key := rowKeys[r];
        var j := 0;
        while j < |columns|
          invariant 0 <= j <= |columns|
          invariant Valid() && rowKeys == old(rowKeys) && cursorRow == old(cursorRow)
          invariant data == old(data) && columns == old(columns)
          invariant labels == old(labels) && sortColumnKey == old(sortColumnKey)
          invariant forall m, c :: 0 <= m < r && 0 <= c < |columns| ==> cells[m][c] == rowKeys[m].Attr(columns[c])
          invariant forall c :: 0 <= c < j ==> cells[r][c] == key.Attr(columns[c])
        {
          UpdateCell(r, j, key.Attr(columns[j]));
          j := j + 1;
        }
        r := r + 1;
      }
    }

    /** The grid's `add_row`: the object's row is appended, its cells taken from its attributes. */
    method AddRow(obj: CachedStockItemRow)
      requires Valid() && obj !in rowKeys
      modifies this
      ensures Valid()
      ensures rowKeys == old(rowKeys) + [obj]
      ensures cells == old(cells) + [RowCells(obj)]
      ensures data == old(data) && columns == old(columns) && labels == old(labels)
      ensures sortColumnKey == old(sortColumnKey) && cursorRow == old(cursorRow)
    {
      rowKeys := rowKeys + [obj];
      cells := cells + [RowCells(obj)];
    }

    /** The grid's `remove_row`: the row of `key` and its cells go, then the cursor is clamped to the remaining rows. */
    method RemoveRow(key: CachedStockItemRow)
      requires Valid() && key in rowKeys
      modifies this
      ensures Valid()
      ensures rowKeys == Without(old(rowKeys), key)
      ensures |rowKeys| == |old(rowKeys)| - 1
      ensures exists i ::
          && 0 <= i < |old(rowKeys)| && old(rowKeys)[i] == key
          && rowKeys == old(rowKeys)[..i] + old(rowKeys)[i + 1..]
          && cells == old(cells)[..i] + old(cells)[i + 1..]
      ensures cursorRow == ClampRow(old(cursorRow), |rowKeys|)
      ensures data == old(data) && columns == old(columns) && labels == old(labels)
      ensures sortColumnKey == old(sortColumnKey)
    {
      var i :| 0 <= i < |rowKeys| && rowKeys[i] == key;
      RemoveAt(rowKeys, i);
      RemoveAtWidths(cells, i, |columns|, cells[..i] + cells[i + 1..]);
      rowKeys := rowKeys[..i] + rowKeys[i + 1..];
      cells := cells[..i] + cells[i + 1..];
      cursorRow := ClampRow(cursorRow, |rowKeys|);
    }

    /** The grid's `update_cell`, on the cell of row `r` under column `c`. */
    method UpdateCell(r: nat, c: nat, value: Value)
      requires Valid() && r < |rowKeys| && c < |columns|
      modifies this
      ensures Valid()
      ensures cells == old(cells)[r := old(cells)[r][c := value]]
      ensures rowKeys == old(rowKeys) && cursorRow == old(cursorRow)
      ensures data == old(data) && columns == old(columns) && labels == old(labels)
      ensures sortColumnKey == old(sortColumnKey)
    {
      cells := cells[r := cells[r][c := value]];
    }

    /** The grid's `move_cursor`: the requested row is clamped to the rows present. */
    method MoveCursor(row: int)
      requires Valid()
      modifies this`cursorRow
      ensures Valid()
      ensures cursorRow == ClampRow(row, |rowKeys|)
    {
      cursorRow := ClampRow(row, |rowKeys|);
    }
  }

  /**
   * The rows after the first two loops of `update`: the old rows still in `d`, in order, then the
   * objects of `d` that had no row.
   */
  lemma UpdatedRows<T>(before: seq<T>, added: seq<T>, d: set<T>)
    requires Elems(added) == d - Elems(before)
    ensures Elems(Keep(before + added, d)) == d
    ensures var kept := Keep(before, d);
      |kept| <= |Keep(before + added, d)| && Keep(before + added, d)[..|kept|] == kept
      && Elems(Keep(before + added, d)[|kept|..]) == d - Elems(before)
  {
    var kept := Keep(before, d);
    var after := Keep(before + added, d);
    KeepConcat(before, added, d);
    KeepAll(added, d);
    assert after == kept + added;
    KeepElems(before + added, d);
    assert Elems(before + added) == Elems(before) + Elems(added);
    assert after[..|kept|] == kept;
    assert after[|kept|..] == added;
  }

  /** The cells during the removal loop, on a row that stays: they are carried over unchanged. */
  lemma KeptCellsStep<T, U>(keys: seq<T>, cs: seq<U>, i: nat, d: set<T>)
    requires |keys| == |cs| && i < |keys| && keys[i] in d
    ensures KeepParallel(keys[..i], cs[..i], d) + cs[i..] == KeepParallel(keys[..i + 1], cs[..i + 1], d) + cs[i + 1..]
  {
    KeepParallelSnoc(keys, cs, d, i);
    assert cs[i..] == [cs[i]] + cs[i + 1..];
  }

  /**
   * The cells during the removal loop, on a row that goes: the grid drops the cells at the row's
   * position, which is the first position after the rows kept so far.
   */
  lemma RemovedCellsStep<T, U>(keys: seq<T>, cs: seq<U>, i: nat, d: set<T>, pre: seq<T>, preCells: seq<U>, j: nat)
    requires |keys| == |cs| && i < |keys| && keys[i] !in d
    requires pre == Keep(keys[..i], d) + keys[i..] && Distinct(pre)
    requires preCells == KeepParallel(keys[..i], cs[..i], d) + cs[i..]
    requires j < |pre| && pre[j] == keys[i]
    ensures j < |preCells|
    ensures preCells[..j] + preCells[j + 1..] == KeepParallel(keys[..i + 1], cs[..i + 1], d) + cs[i + 1..]
  {
    var kc := KeepParallel(keys[..i], cs[..i], d);
    var k := |Keep(keys[..i], d)|;
    assert pre[k] == keys[i];
    assert j == k;
    KeepParallelSnoc(keys, cs, d, i);
    assert preCells[..j] == kc;
    assert preCells[j + 1..] == cs[i + 1..];
  }

  /** A step of the removal loop over a snapshot `keys` of the rows, on a row that stays. */
  lemma KeptStep<T>(keys: seq<T>, i: nat, d: set<T>)
    requires i < |keys| && keys[i] in d
    ensures Keep(keys[..i], d) + keys[i..] == Keep(keys[..i + 1], d) + keys[i + 1..]
  {
    var key := keys[i];
    assert keys[..i + 1] == keys[..i] + [key];
    KeepConcat(keys[..i], [key], d);
    assert Keep([key], d) == [key];
    assert keys[i..] == [key] + keys[i + 1..];
  }

  /** A step of the removal loop over a snapshot `keys` of the rows, on a row that goes. */
  lemma RemovedStep<T>(keys: seq<T>, i: nat, d: set<T>)
    requires Distinct(keys) && i < |keys| && keys[i] !in d
    ensures keys[i] in Keep(keys[..i], d) + keys[i..]
    ensures Without(Keep(keys[..i], d) + keys[i..], keys[i]) == Keep(keys[..i + 1], d) + keys[i + 1..]
  {
    var key := keys[i];
    var pre := keys[..i];
    var post := keys[i + 1..];
    var kept := Keep(pre, d);
    assert Keep(keys[..i + 1], d) == kept by {
      assert keys[..i + 1] == pre + [key];
      KeepConcat(pre, [key], d);
      assert Keep([key], d) == [];
    }
    assert key !in kept by {
      assert forall j :: 0 <= j < |pre| ==> pre[j] != key;
      assert forall j :: 0 <= j < |kept| ==> kept[j] in pre;
    }
    assert key !in post by {
      assert forall j :: 0 <= j < |post| ==> post[j] == keys[i + 1 + j];
    }
    assert kept + keys[i..] == kept + [key] + post by {
      assert keys[i..] == [key] + post;
    }
    assert (kept + keys[i..])[|kept|] == key;
    WithoutSplit(kept, key, post);
  }

  lemma ElemsEmpty<T>(s: seq<T>)
    requires Elems(s) == {}
    ensures s == []
  {
    if s != [] {
      ElemsAt(s, 0);
      assert false;
    }
  }

  /** `ModelDataTable(CachedStockItemRow, sort_column_key)`: raises when the sort column is not a column. */
  method NewModelDataTable(sortColumnKey: Option<string>) returns (r: Result<ModelDataTable>)
    ensures r.Ok? <==> SortColumnCheck(StockItemRowFields, sortColumnKey).Ok?
    ensures r.Err? ==> r.error == SortColumnCheck(StockItemRowFields, sortColumnKey).error
    ensures r.Ok? ==> fresh(r.value) && r.value.Valid() && r.value.Synced()
    ensures r.Ok? ==> r.value.data == {} && r.value.sortColumnKey == sortColumnKey
  {
    var check := SortColumnCheck(StockItemRowFields, sortColumnKey);
    if check.Err? {
      return Err(check.error);
    }
    var table := new ModelDataTable(sortColumnKey);
    return Ok(table);
  }

  /** Removing position `i` of a sequence without repeats removes its element and nothing else. */
  lemma RemoveAt<T>(s: seq<T>, i: nat)
    requires Distinct(s) && i < |s|
    ensures Without(s, s[i]) == s[..i] + s[i + 1..]
    ensures Distinct(s[..i] + s[i + 1..]) && |s[..i] + s[i + 1..]| == |s| - 1
  {
    var rest := s[..i] + s[i + 1..];
    assert s == s[..i] + [s[i]] + s[i + 1..];
    WithoutSplit(s[..i], s[i], s[i + 1..]);
    KeepAllBut(s, Elems(s) - {s[i]}, s[i]);
    KeepDistinct(s, Elems(s) - {s[i]});
  }

  /** Removing one row of cells keeps every other row's width. */
  lemma RemoveAtWidths(cells: seq<seq<Value>>, i: nat, width: nat, remaining: seq<seq<Value>>)
    requires i < |cells| && forall r :: 0 <= r < |cells| ==> |cells[r]| == width
    requires remaining == cells[..i] + cells[i + 1..]
    ensures forall r :: 0 <= r < |remaining| ==> |remaining[r]| == width
  {
    assert forall k :: 0 <= k < |remaining| ==> remaining[k] == cells[if k < i then k else k + 1];
  }

  /** Dropping one present element from a sequence without duplicates leaves one element fewer. */
  lemma WithoutLength<T>(s: seq<T>, x: T)
    requires Distinct(s) && x in s
    ensures |Without(s, x)| == |s| - 1
  {
    var i :| 0 <= i < |s| && s[i] == x;
    assert s == s[..i] + [x] + s[i + 1..];
    WithoutSplit(s[..i], x, s[i + 1..]);
  }
}
