/**
 * The item dimension and bridge built from one list-valued column
 * (genres, production companies, production countries or keywords): the
 * exploded rows get a surrogate key (`item_id`, else the digest of the
 * label), the dimension is the distinct (key, label) pairs, and the bridge
 * is every exploded (film, key) pair with both values present.
 */
module ItemDim {
  import opened Wrappers
  import opened Text
  import opened Collections
  import opened Frames
  import opened StableId
  import opened Explode

  /** `item_id.fillna(item_name.apply(name_to_int_id))` for one exploded row. */
  function Surrogate(md5: Md5, it: ItemRow): Option<int> {
    if it.itemId.Some? then it.itemId
    else
      match NameToIntId(md5, Some(it.itemName))
      case None => None
      case Some(n) => Some(n)
  }

  /** A row of the item dimension: its key and its label. */
  datatype ItemEntry = ItemEntry(surrogate: Option<int>, name: string)

  /** A row of the bridge table. */
  datatype BridgeRow = BridgeRow(idFilme: int, surrogate: int)

  /** The key and label of one exploded row. */
  function EntryOf(md5: Md5, it: ItemRow): ItemEntry {
    ItemEntry(Surrogate(md5, it), it.itemName)
  }

  /** `df[[key, "item_name"]]`. */
  function Entries(md5: Md5, items: seq<ItemRow>): (r: seq<ItemEntry>)
    ensures |r| == |items| && forall k :: 0 <= k < |items| ==> r[k] == EntryOf(md5, items[k])
  {
    seq(|items|, k requires 0 <= k < |items| => EntryOf(md5, items[k]))
  }

  /** `.drop_duplicates()` of the (key, label) pairs. */
  function ItemDimension(md5: Md5, items: seq<ItemRow>): seq<ItemEntry> {
    DedupBy(Entries(md5, items), Self)
  }

  /** The bridge row of one exploded row, if both of its values are present (`dropna()`). */
  function BridgeOf(md5: Md5): ItemRow -> seq<BridgeRow> {
    (it: ItemRow) =>
      if it.filmId.Some? && Surrogate(md5, it).Some? then [BridgeRow(it.filmId.value, Surrogate(md5, it).value)] else []
  }

  /** `df[["id_filme", key]].dropna()`, in exploded order; duplicates are kept. */
  function Bridge(md5: Md5, items: seq<ItemRow>): seq<BridgeRow> {
    FlatMap(items, BridgeOf(md5))
  }

  /** The two tables of one column: the dimension and the bridge. */
  datatype ItemTables = ItemTables(dimension: seq<ItemEntry>, bridge: seq<BridgeRow>)

  /** The tables built from a column's exploded rows. */
  function ItemTablesOf(md5: Md5, items: seq<ItemRow>): ItemTables {
    ItemTables(ItemDimension(md5, items), Bridge(md5, items))
  }

  /** Some exploded rows give some dimension rows. */
  lemma DimensionNonEmpty(md5: Md5, items: seq<ItemRow>)
    requires items != []
    ensures |ItemDimension(md5, items)| > 0
  {
    var es := Entries(md5, items);
    assert Self(es[0]) in KeysOf(es, Self);
  }

  /**
   * An item id already present is kept; a missing one becomes the label's
   * digest id, which is present exactly for a non-blank label, fits in 64
   * bits, and depends only on the stripped label.
   */
  lemma SurrogateSpec(md5: Md5, it: ItemRow, other: ItemRow)
    ensures it.itemId.Some? ==> Surrogate(md5, it) == it.itemId
    ensures it.itemId.None? ==> (Surrogate(md5, it).Some? <==> !IsBlank(it.itemName))
    ensures it.itemId.None? && Surrogate(md5, it).Some? ==> 0 <= Surrogate(md5, it).value < IdBound
    ensures it.itemId.None? && other.itemId.None? && Strip(it.itemName) == Strip(other.itemName) ==>
      Surrogate(md5, it) == Surrogate(md5, other)
  {
    NameToIntIdBound(md5, Some(it.itemName));
    if Strip(it.itemName) == Strip(other.itemName) {
      NameToIntIdStable(md5, it.itemName, other.itemName);
    }
  }

  /** Every exploded row gets a key below 2^64. */
  lemma ExplodedSurrogates(md5: Md5, rows: seq<Row>, col: ItemColumn, it: ItemRow)
    requires it in ExplodeRows(rows, col)
    ensures Surrogate(md5, it).Some? && 0 <= Surrogate(md5, it).value < IdBound
  {
    ExplodeRowsShape(rows, col);
    assert it.itemName != [] && IsStripped(it.itemName);
    StrippedNotBlank(it.itemName);
    SurrogateSpec(md5, it, it);
  }

  /** A non-empty stripped label is not blank. */
  lemma StrippedNotBlank(s: string)
    requires s != [] && IsStripped(s)
    ensures !IsBlank(s)
  {
    StripEmptyIffBlank(s);
    StrippedIsFixed(s);
  }

  /** The dimension lists each (key, label) pair of the exploded rows exactly once. */
  lemma ItemDimensionExact(md5: Md5, items: seq<ItemRow>, e: ItemEntry)
    ensures var d := ItemDimension(md5, items);
      && (forall i, j :: 0 <= i < j < |d| ==> d[i] != d[j])
      && (e in d <==> exists k :: 0 <= k < |items| && EntryOf(md5, items[k]) == e)
  {
    var d := ItemDimension(md5, items);
    var es := Entries(md5, items);
    forall i, j | 0 <= i < j < |d|
      ensures d[i] != d[j]
    {
      assert Self(d[i]) != Self(d[j]);
    }
    if e in d {
      assert e in es;
    }
    if exists k :: 0 <= k < |items| && EntryOf(md5, items[k]) == e {
      var k :| 0 <= k < |items| && EntryOf(md5, items[k]) == e;
      assert Self(es[k]) in KeysOf(d, Self);
      KeysOfWitness(d, Self, e);
    }
  }

  /**
   * For rows without an item id the key is a function of the label, so
   * deduplicating (key, label) pairs leaves each label once.
   */
  lemma HashedNamesDistinct(md5: Md5, items: seq<ItemRow>)
    requires forall k :: 0 <= k < |items| ==> items[k].itemId.None?
    ensures var d := ItemDimension(md5, items);
      forall i, j :: 0 <= i < j < |d| ==> d[i].name != d[j].name
  {
    var d := ItemDimension(md5, items);
    forall i, j | 0 <= i < j < |d|
      ensures d[i].name != d[j].name
    {
      assert Self(d[i]) != Self(d[j]);
      if d[i].name == d[j].name {
        EntryByName(md5, items, d[i], d[j]);
      }
    }
  }

  /** Without item ids, two entries of the exploded rows with the same label are the same entry. */
  lemma EntryByName(md5: Md5, items: seq<ItemRow>, x: ItemEntry, y: ItemEntry)
    requires forall k :: 0 <= k < |items| ==> items[k].itemId.None?
    requires x in Entries(md5, items) && y in Entries(md5, items) && x.name == y.name
    ensures x == y
  {
    var es := Entries(md5, items);
    var a :| 0 <= a < |items| && es[a] == x;
    var b :| 0 <= b < |items| && es[b] == y;
    assert items[a].itemId == items[b].itemId;
  }

  /** The dimension built from an exploded column lists each label once. */
  lemma ItemNamesDistinct(md5: Md5, rows: seq<Row>, col: ItemColumn)
    ensures var d := ItemDimension(md5, ExplodeRows(rows, col));
      forall i, j :: 0 <= i < j < |d| ==> d[i].name != d[j].name
  {
    var items := ExplodeRows(rows, col);
    ExplodeRowsShape(rows, col);
    assert forall k :: 0 <= k < |items| ==> items[k] in items;
    HashedNamesDistinct(md5, items);
  }

  /** A bridge row exists exactly for an exploded row whose film and key are both present. */
  lemma BridgeMember(md5: Md5, items: seq<ItemRow>, b: BridgeRow)
    ensures b in Bridge(md5, items) <==>
      exists k :: 0 <= k < |items| && items[k].filmId == Some(b.idFilme) && Surrogate(md5, items[k]) == Some(b.surrogate)
  {
    FlatMapMember(items, BridgeOf(md5), b);
  }

  /**
   * Referential integrity of the bridge: its film is the `id` of a frame
   * row, and its key is listed in the item dimension.
   */
  lemma BridgeIntegrity(md5: Md5, rows: seq<Row>, col: ItemColumn, b: BridgeRow)
    requires b in Bridge(md5, ExplodeRows(rows, col))
    ensures exists r :: 0 <= r < |rows| && rows[r].id == Some(b.idFilme)
    ensures exists e :: e in ItemDimension(md5, ExplodeRows(rows, col)) && e.surrogate == Some(b.surrogate)
  {
    var items := ExplodeRows(rows, col);
    BridgeMember(md5, items, b);
    var k :| 0 <= k < |items| && items[k].filmId == Some(b.idFilme) && Surrogate(md5, items[k]) == Some(b.surrogate);
    ExplodeRowsMember(rows, col, items[k]);
    var r :| 0 <= r < |rows| && items[k] in CellItems(rows[r], col);
    CellItemsMember(rows[r], col, items[k]);
    var e := EntryOf(md5, items[k]);
    ItemDimensionExact(md5, items, e);
  }

  /** Every exploded row with a film `id` has its bridge row. */
  lemma BridgeComplete(md5: Md5, rows: seq<Row>, col: ItemColumn, it: ItemRow)
    requires it in ExplodeRows(rows, col) && it.filmId.Some?
    ensures Surrogate(md5, it).Some?
    ensures BridgeRow(it.filmId.value, Surrogate(md5, it).value) in Bridge(md5, ExplodeRows(rows, col))
  {
    var items := ExplodeRows(rows, col);
    ExplodedSurrogates(md5, rows, col, it);
    var k :| 0 <= k < |items| && items[k] == it;
    BridgeMember(md5, items, BridgeRow(it.filmId.value, Surrogate(md5, it).value));
  }
}
