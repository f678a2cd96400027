/**
 * `explode_json_column(df, col, id_col="id")`: one output row per
 * non-blank comma-separated label of each cell, tagged with the row's
 * `id`. Despite its name the function never parses JSON; the item id it
 * emits is always missing, to be filled in by the modeller.
 */
module Explode {
  import opened Wrappers
  import opened Text
  import opened Frames
  import opened Collections

  /** One exploded row: `{"film_id": ..., "item_name": ..., "item_id": None}`. */
  datatype ItemRow = ItemRow(filmId: Option<int>, itemName: string, itemId: Option<int>)

  /** The rows emitted for the labels of one cell, in label order. */
  function ItemRowsOf(filmId: Option<int>, names: seq<string>): (r: seq<ItemRow>)
    ensures |r| == |names|
    ensures forall k :: 0 <= k < |r| ==> r[k] == ItemRow(filmId, names[k], None)
  {
    seq(|names|, k requires 0 <= k < |names| => ItemRow(filmId, names[k], None))
  }

  /** Appending one label appends its row. */
  lemma ItemRowsOfSnoc(filmId: Option<int>, names: seq<string>, x: string)
    ensures ItemRowsOf(filmId, names + [x]) == ItemRowsOf(filmId, names) + [ItemRow(filmId, x, None)]
  {
    var a := ItemRowsOf(filmId, names + [x]);
    var b := ItemRowsOf(filmId, names) + [ItemRow(filmId, x, None)];
    assert |a| == |b|;
    forall k | 0 <= k < |a|
      ensures a[k] == b[k]
    {
      if k < |names| {
        assert (names + [x])[k] == names[k];
      }
    }
  }

  /**
   * The labels a cell contributes: none for a missing cell or one whose
   * `strip()` is empty, that is, a blank one (`StripEmptyIffBlank`).
   */
  function CellLabels(row: Row, col: ItemColumn): seq<string> {
    match ItemCell(row, col)
    case None => []
    case Some(raw) => if IsBlank(raw) then [] else Segments(raw)
  }

  /** The rows emitted for one frame row. */
  function CellItems(row: Row, col: ItemColumn): seq<ItemRow> {
    ItemRowsOf(row.id, CellLabels(row, col))
  }

  /** Each row emitted for a cell carries the row's id, no item id, and a non-blank, stripped, comma-free label. */
  lemma CellItemsShape(row: Row, col: ItemColumn)
    ensures forall k :: 0 <= k < |CellItems(row, col)| ==>
      && CellItems(row, col)[k].filmId == row.id && CellItems(row, col)[k].itemId.None?
      && CellItems(row, col)[k].itemName != [] && IsStripped(CellItems(row, col)[k].itemName)
      && ',' !in CellItems(row, col)[k].itemName
  {
    if ItemCell(row, col).Some? {
      SegmentShape(ItemCell(row, col).value);
    }
  }

  /** The per-row step of the loop, as a function value. */
  function Emitter(col: ItemColumn): Row -> seq<ItemRow> {
    (row: Row) => CellItems(row, col)
  }

  /** The rows the loop appends over `rows`, in row order and then label order. */
  function ExplodeRows(rows: seq<Row>, col: ItemColumn): seq<ItemRow> {
    FlatMap(rows, Emitter(col))
  }

  /** The function's result: `None` for a missing column or when no row was emitted. */
  function Exploded(df: Frame, col: ItemColumn): Option<seq<ItemRow>> {
    if Items(col) !in df.columns then None
    else
      var rows := ExplodeRows(df.rows, col);
      if rows == [] then None else Some(rows)
  }

  /** The inner loop: appends one row per label, in label order. */
  method AppendLabels(rows: seq<ItemRow>, filmId: Option<int>, items: seq<string>) returns (out: seq<ItemRow>)
    ensures out == rows + ItemRowsOf(filmId, items)
  {
    out := rows;
    var j := 0;
    while j < |items|
      invariant 0 <= j <= |items|
      invariant out == rows + ItemRowsOf(filmId, items[..j])
    {
      assert items[..j + 1] == items[..j] + [items[j]];
      ItemRowsOfSnoc(filmId, items[..j], items[j]);
      out := out + [ItemRow(filmId, items[j], None)];
      j := j + 1;
    }
    assert items[..j] == items;
  }

  /** The outer loop of the source over the frame's rows. */
  method ExplodeJsonColumn(df: Frame, col: ItemColumn) returns (r: Option<seq<ItemRow>>)
    ensures r == Exploded(df, col)
  {
    if Items(col) !in df.columns {
      return None;
    }
    var rows: seq<ItemRow> := [];
    var i := 0;
    assert df.rows[..0] == [];
    while i < |df.rows|
      invariant 0 <= i <= |df.rows|
      invariant rows == ExplodeRows(df.rows[..i], col)
    {
      var row := df.rows[i];
      var filmId := row.id;
      var raw := ItemCell(row, col);
      ghost var before := rows;
      if raw.Some? && !IsBlank(raw.value) {
        var items := Segments(raw.value);
        rows := AppendLabels(rows, filmId, items);
      }
      assert rows == before + CellItems(row, col);
      FlatMapPrefixStep(df.rows, i, Emitter(col));
      assert Emitter(col)(row) == CellItems(row, col);
      i := i + 1;
    }
    assert df.rows[..i] == df.rows;
    if rows == [] {
      return None;
    }
    return Some(rows);
  }

  /** Exploding two blocks of rows is exploding each and concatenating. */
  lemma ExplodeRowsAppend(a: seq<Row>, b: seq<Row>, col: ItemColumn)
    ensures ExplodeRows(a + b, col) == ExplodeRows(a, col) + ExplodeRows(b, col)
  {
    FlatMapAppend(a, b, Emitter(col));
  }

  /** A row is emitted for a cell exactly when it is a non-blank label of that cell. */
  lemma CellItemsMember(row: Row, col: ItemColumn, it: ItemRow)
    ensures it in CellItems(row, col) <==>
      && ItemCell(row, col).Some? && !IsBlank(ItemCell(row, col).value)
      && it == ItemRow(row.id, it.itemName, None)
      && it.itemName in Segments(ItemCell(row, col).value)
  {
    if ItemCell(row, col).Some? && !IsBlank(ItemCell(row, col).value) {
      var names := Segments(ItemCell(row, col).value);
      if it in CellItems(row, col) {
        var k :| 0 <= k < |names| && CellItems(row, col)[k] == it;
        assert names[k] == it.itemName;
      }
      if it == ItemRow(row.id, it.itemName, None) && it.itemName in names {
        var k :| 0 <= k < |names| && names[k] == it.itemName;
        assert CellItems(row, col)[k] == it;
      }
    }
  }

  /** A row is emitted exactly when some frame row's cell emits it. */
  lemma ExplodeRowsMember(rows: seq<Row>, col: ItemColumn, it: ItemRow)
    ensures it in ExplodeRows(rows, col) <==> exists i :: 0 <= i < |rows| && it in CellItems(rows[i], col)
  {
    FlatMapMember(rows, Emitter(col), it);
    assert forall i :: 0 <= i < |rows| ==> Emitter(col)(rows[i]) == CellItems(rows[i], col);
  }

  /** Every emitted row carries a non-blank, stripped, comma-free label and no item id. */
  lemma ExplodeRowsShape(rows: seq<Row>, col: ItemColumn)
    ensures forall it :: it in ExplodeRows(rows, col) ==>
      it.itemId.None? && it.itemName != [] && IsStripped(it.itemName) && ',' !in it.itemName
  {
    forall it | it in ExplodeRows(rows, col)
      ensures it.itemId.None? && it.itemName != [] && IsStripped(it.itemName) && ',' !in it.itemName
    {
      ExplodeRowsMember(rows, col, it);
      var i :| 0 <= i < |rows| && it in CellItems(rows[i], col);
      CellItemsShape(rows[i], col);
    }
  }

  /** Nothing is emitted exactly when no cell emits anything. */
  lemma ExplodeRowsEmpty(rows: seq<Row>, col: ItemColumn)
    ensures ExplodeRows(rows, col) == [] <==> forall i :: 0 <= i < |rows| ==> CellItems(rows[i], col) == []
  {
    FlatMapEmpty(rows, Emitter(col));
    assert forall i :: 0 <= i < |rows| ==> Emitter(col)(rows[i]) == CellItems(rows[i], col);
  }

  /** `None` exactly for a missing column or a column whose every cell is missing or blank-only. */
  lemma ExplodeNone(df: Frame, col: ItemColumn)
    ensures Exploded(df, col).None? <==>
      (Items(col) !in df.columns || forall i :: 0 <= i < |df.rows| ==> CellItems(df.rows[i], col) == [])
  {
    ExplodeRowsEmpty(df.rows, col);
  }
}
