/**
 * `Dim_Filme`: one row per distinct `id`, taken from the first row with
 * that `id`, with `original_language` replaced by its `Dim_Idioma` number.
 */
module MovieDim {
  import opened Wrappers
  import opened Collections
  import opened Frames
  import opened LanguageDim

  /** The `id_idioma_original` column: absent when the frame has no `original_language` column. */
  datatype LangRef = NoLanguageColumn | LanguageKey(key: Option<int>)

  /** One row of `Dim_Filme`; `original_language` itself is dropped before writing. */
  datatype Movie = Movie(idFilme: Option<int>, text: MovieText, idIdiomaOriginal: LangRef)

  /** `Series.map(lang_map)` on one value: missing for a missing or unmapped language. */
  function MapLanguage(langMap: map<string, int>, lang: Option<string>): Option<int> {
    if lang.Some? && lang.value in langMap then Some(langMap[lang.value]) else None
  }

  /** `drop_duplicates(subset=["id"])`: the first row of each `id`, in row order. */
  function FirstPerId(rows: seq<Row>): seq<Row> {
    DedupBy(rows, RowId)
  }

  /** The `Dim_Filme` row built from one kept frame row. */
  function MovieOf(r: Row, hasLanguage: bool, langMap: map<string, int>): Movie {
    Movie(r.id, r.text, if hasLanguage then LanguageKey(MapLanguage(langMap, r.originalLanguage)) else NoLanguageColumn)
  }

  /** `Dim_Filme` for a frame and the `lang_map` built before it. */
  function MovieDimension(df: Frame, langMap: map<string, int>): (m: seq<Movie>)
    ensures |m| == |FirstPerId(df.rows)|
    ensures forall k :: 0 <= k < |m| ==> m[k] == MovieOf(FirstPerId(df.rows)[k], OriginalLanguage in df.columns, langMap)
  {
    var kept := FirstPerId(df.rows);
    seq(|kept|, k requires 0 <= k < |kept| => MovieOf(kept[k], OriginalLanguage in df.columns, langMap))
  }

  /** No `id` occurs twice in `Dim_Filme`. */
  lemma MovieIdsDistinct(df: Frame, langMap: map<string, int>)
    ensures var m := MovieDimension(df, langMap);
      forall i, j :: 0 <= i < j < |m| ==> m[i].idFilme != m[j].idFilme
  {
    var m := MovieDimension(df, langMap);
    var kept := FirstPerId(df.rows);
    forall i, j | 0 <= i < j < |m|
      ensures m[i].idFilme != m[j].idFilme
    {
      assert RowId(kept[i]) != RowId(kept[j]);
    }
  }

  /** Every `id` of the frame has its row in `Dim_Filme`. */
  lemma MovieIdsComplete(df: Frame, langMap: map<string, int>, r: nat)
    requires r < |df.rows|
    ensures var m := MovieDimension(df, langMap);
      exists k :: 0 <= k < |m| && m[k].idFilme == df.rows[r].id
  {
    var m := MovieDimension(df, langMap);
    var kept := FirstPerId(df.rows);
    assert RowId(df.rows[r]) in KeysOf(kept, RowId);
    KeysOfWitness(kept, RowId, RowId(df.rows[r]));
    var k :| 0 <= k < |kept| && RowId(kept[k]) == RowId(df.rows[r]);
    assert m[k].idFilme == df.rows[r].id;
  }

  /** Each `Dim_Filme` row is built from the first frame row with its `id`. */
  lemma MovieFromFirstRow(df: Frame, langMap: map<string, int>, k: nat)
    requires k < |MovieDimension(df, langMap)|
    ensures var m := MovieDimension(df, langMap);
      m[k].idFilme in KeysOf(df.rows, RowId)
      && m[k] == MovieOf(df.rows[FirstKeyIndex(df.rows, RowId, m[k].idFilme)], OriginalLanguage in df.columns, langMap)
  {
    var kept := FirstPerId(df.rows);
    DedupByKeepsFirst(df.rows, RowId);
    assert RowId(kept[k]) in KeysOf(kept, RowId);
  }

  /**
   * With the `original_language` column, a movie's language key is present
   * exactly when its first row has a language, and then it is the number
   * under which `Dim_Idioma` lists that language.
   */
  lemma MovieLanguageKey(df: Frame, k: nat)
    requires OriginalLanguage in df.columns
    requires k < |FirstPerId(df.rows)|
    ensures var d := LanguageDimension(df.rows);
      var lang := FirstPerId(df.rows)[k].originalLanguage;
      var ref := MovieDimension(df, LanguageMap(d))[k].idIdiomaOriginal;
      && ref.LanguageKey?
      && (ref.key.Some? <==> lang.Some?)
      && (ref.key.Some? ==> 1 <= ref.key.value <= |d| && d[ref.key.value - 1].nomeIdioma == lang.value)
  {
    var d := LanguageDimension(df.rows);
    var lang := FirstPerId(df.rows)[k].originalLanguage;
    LanguageMapInverse(df.rows);
    if lang.Some? {
      LanguageKnown(df.rows, FirstPerId(df.rows)[k]);
    }
  }

  /** The language of any frame row is listed in `Dim_Idioma`, hence mapped. */
  lemma LanguageKnown(rows: seq<Row>, row: Row)
    requires row in rows && row.originalLanguage.Some?
    ensures row.originalLanguage.value in LanguageMap(LanguageDimension(rows))
  {
    var d := LanguageDimension(rows);
    var x := row.originalLanguage.value;
    var r :| 0 <= r < |rows| && rows[r] == row;
    LanguageNamesComplete(rows, x);
    var i :| 0 <= i < |LanguageNames(rows)| && LanguageNames(rows)[i] == x;
    LanguageIds(rows);
    assert d[i].nomeIdioma == x;
    LanguageMapInverse(rows);
  }
}
