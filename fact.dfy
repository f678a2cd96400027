/**
 * `Fato_Filme`: one row per distinct `id`, from the first row with that
 * `id`, with the measures and `id_tempo = tempo_map[id]` (missing when the
 * film has no time row).
 */
module FactTable {
  import opened Wrappers
  import opened Collections
  import opened Frames
  import opened MovieDim
  import opened TimeDim

  /** One row of `Fato_Filme`. */
  datatype Fact = Fact(idFilme: Option<int>, metrics: Metrics, idTempo: Option<int>)

  /** `Series.map(tempo_map)` on one value. */
  function MapTempo(tempoMap: map<int, int>, id: Option<int>): Option<int> {
    if id.Some? && id.value in tempoMap then Some(tempoMap[id.value]) else None
  }

  /** `Fato_Filme` for a frame and `tempo_map`. */
  function FactRows(df: Frame, tempoMap: map<int, int>): (f: seq<Fact>)
    ensures |f| == |FirstPerId(df.rows)|
    ensures forall k :: 0 <= k < |f| ==>
      f[k] == Fact(FirstPerId(df.rows)[k].id, FirstPerId(df.rows)[k].metrics, MapTempo(tempoMap, FirstPerId(df.rows)[k].id))
  {
    var kept := FirstPerId(df.rows);
    seq(|kept|, k requires 0 <= k < |kept| => Fact(kept[k].id, kept[k].metrics, MapTempo(tempoMap, kept[k].id)))
  }

  /** `Fato_Filme` and `Dim_Filme` list the same films in the same order, one row each. */
  lemma FactAlignsWithMovies(df: Frame, tempoMap: map<int, int>, langMap: map<string, int>)
    ensures var f := FactRows(df, tempoMap);
      var m := MovieDimension(df, langMap);
      |f| == |m| && forall k :: 0 <= k < |f| ==> f[k].idFilme == m[k].idFilme
  {
  }

  /** No film has two rows in `Fato_Filme`, and every film of the frame has one. */
  lemma FactIdsDistinctComplete(df: Frame, tempoMap: map<int, int>, r: nat)
    requires r < |df.rows|
    ensures var f := FactRows(df, tempoMap);
      && (forall i, j :: 0 <= i < j < |f| ==> f[i].idFilme != f[j].idFilme)
      && (exists k :: 0 <= k < |f| && f[k].idFilme == df.rows[r].id)
  {
    var f := FactRows(df, tempoMap);
    var m := MovieDimension(df, map[]);
    FactAlignsWithMovies(df, tempoMap, map[]);
    MovieIdsDistinct(df, map[]);
    MovieIdsComplete(df, map[], r);
    var k :| 0 <= k < |m| && m[k].idFilme == df.rows[r].id;
    assert f[k].idFilme == df.rows[r].id;
  }

  /**
   * Referential integrity of `id_tempo`: a fact has a time key exactly when
   * its film has a row in `Dim_Tempo`, and the key is the `id_tempo` of a
   * time row of that film.
   */
  lemma FactTimeKey(df: Frame, parse: DateParser, k: nat)
    requires k < |FirstPerId(df.rows)|
    ensures var t := TimeDimension(df.rows, parse);
      var fact := FactRows(df, TempoMap(t))[k];
      && (fact.idTempo.Some? <==> fact.idFilme.Some? && exists i :: 0 <= i < |t| && t[i].idFilme == fact.idFilme.value)
      && (fact.idTempo.Some? ==> exists i :: 0 <= i < |t| && t[i].idFilme == fact.idFilme.value && t[i].idTempo == fact.idTempo.value)
  {
    var t := TimeDimension(df.rows, parse);
    var fact := FactRows(df, TempoMap(t))[k];
    if fact.idFilme.Some? {
      var x := fact.idFilme.value;
      if exists i :: 0 <= i < |t| && t[i].idFilme == x {
        var i :| 0 <= i < |t| && t[i].idFilme == x;
        TempoMapLast(t, i);
      }
      if x in TempoMap(t) {
        TempoMapRefers(t, x);
      }
    }
  }

  /** A fact's key points at a row of `Dim_Tempo` whose frame row has that film's `id`. */
  lemma FactTimeRow(df: Frame, parse: DateParser, k: nat)
    requires k < |FirstPerId(df.rows)|
    requires FactRows(df, TempoMap(TimeDimension(df.rows, parse)))[k].idTempo.Some?
    ensures FirstPerId(df.rows)[k].id.Some?
    ensures RowHasDate(df.rows, FactRows(df, TempoMap(TimeDimension(df.rows, parse)))[k].idTempo.value, FirstPerId(df.rows)[k].id.value)
  {
    var t := TimeDimension(df.rows, parse);
    var x := FirstPerId(df.rows)[k].id;
    assert x.Some? && x.value in TempoMap(t);
    TimeDimensionSourced(df.rows, parse);
    TempoKeySource(df.rows, t, x.value);
  }
}
