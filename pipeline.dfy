/**
 * `task_transform_and_load`: from the bronze frame, the tables it hands to
 * `write_table_engine`, in order, and the warehouse they leave behind. A
 * table with no rows is skipped by the sink; every other write replaces the
 * table of that name.
 */
module Pipeline {
  import opened Wrappers
  import opened Collections
  import opened Frames
  import opened StableId
  import opened Explode
  import opened LanguageDim
  import opened MovieDim
  import opened TimeDim
  import opened FactTable
  import opened ItemDim

  /** The warehouse tables the task writes. */
  datatype TableName = DimIdioma | DimFilme | DimTempo | FatoFilme | DimItem(col: ItemColumn) | BridgeItem(col: ItemColumn)

  /** The SQL name of each table. */
  function SqlName(n: TableName): string {
    match n
    case DimIdioma => "Dim_Idioma"
    case DimFilme => "Dim_Filme"
    case DimTempo => "Dim_Tempo"
    case FatoFilme => "Fato_Filme"
    case DimItem(Genres) => "Dim_Genero"
    case DimItem(ProductionCompanies) => "Dim_Companhia"
    case DimItem(ProductionCountries) => "Dim_Pais"
    case DimItem(Keywords) => "Dim_Keyword"
    case BridgeItem(Genres) => "Filme_Genero"
    case BridgeItem(ProductionCompanies) => "Filme_Companhia"
    case BridgeItem(ProductionCountries) => "Filme_Pais"
    case BridgeItem(Keywords) => "Filme_Keyword"
  }

  /** A row of `Dim_Tempo` as written: `tempo` without `id_filme`. */
  datatype TempoRecord = TempoRecord(idTempo: int, releaseDate: Date, ano: int, mes: Month, trimestre: int, decada: int)

  /** `tempo[["id_tempo", "release_date", "ano", "mes", "trimestre", "decada"]]`. */
  function TempoRecords(t: seq<TimeRow>): (r: seq<TempoRecord>)
    ensures |r| == |t|
    ensures forall i :: 0 <= i < |t| ==>
      && r[i].idTempo == t[i].idTempo && r[i].releaseDate == t[i].releaseDate
      && r[i].ano == t[i].ano && r[i].mes == t[i].mes && r[i].trimestre == t[i].trimestre && r[i].decada == t[i].decada
  {
    seq(|t|, i requires 0 <= i < |t| => TempoRecord(t[i].idTempo, t[i].releaseDate, t[i].ano, t[i].mes, t[i].trimestre, t[i].decada))
  }

  /**
   * The written `Dim_Tempo`: `id_tempo` strictly increases, and each
   * record's year, month, quarter and decade are those of its date.
   */
  lemma WrittenTempo(rows: seq<Row>, parse: DateParser)
    ensures var recs := TempoRecords(TimeDimension(rows, parse));
      && (forall i, j :: 0 <= i < j < |recs| ==> recs[i].idTempo < recs[j].idTempo)
      && (forall i :: 0 <= i < |recs| ==>
            && recs[i].ano == recs[i].releaseDate.year && recs[i].mes == recs[i].releaseDate.month
            && 1 <= recs[i].trimestre <= 4 && 3 * (recs[i].trimestre - 1) < recs[i].mes <= 3 * recs[i].trimestre
            && recs[i].decada % 10 == 0 && recs[i].decada <= recs[i].ano < recs[i].decada + 10)
  {
    var t := TimeDimension(rows, parse);
    var cs := DistinctPairs(rows);
    var ds := ParseColumn(cs, parse);
    TimeIdsIncreasing(rows, parse);
    forall i | 0 <= i < |t|
      ensures && t[i].ano == t[i].releaseDate.year && t[i].mes == t[i].releaseDate.month
        && 1 <= t[i].trimestre <= 4 && 3 * (t[i].trimestre - 1) < t[i].mes <= 3 * t[i].trimestre
        && t[i].decada % 10 == 0 && t[i].decada <= t[i].ano < t[i].decada + 10
    {
      TimeRowsMember(cs, ds, t[i]);
      var k :| 0 <= k < |cs| && ds[k].Some? && t[i] == TimeRowOf(cs[k], ds[k].value);
      CalendarFields(cs[k], ds[k].value);
    }
  }

  /** The contents of one table handed to the sink. */
  datatype Table =
    | IdiomaTable(langs: seq<Language>)
    | FilmeTable(movies: seq<Movie>)
    | TempoTable(times: seq<TempoRecord>)
    | FatoTable(facts: seq<Fact>)
    | ItemTable(entries: seq<ItemEntry>)
    | BridgeTable(links: seq<BridgeRow>)

  /** The number of rows of a table. */
  function Size(t: Table): nat {
    match t
    case IdiomaTable(s) => |s|
    case FilmeTable(s) => |s|
    case TempoTable(s) => |s|
    case FatoTable(s) => |s|
    case ItemTable(s) => |s|
    case BridgeTable(s) => |s|
  }

  /** One call of `write_table_engine`. */
  datatype TableWrite = TableWrite(name: TableName, table: Table)

  /** Why the task stops early. */
  datatype PipelineError =
    /** `tempo` is read at `tempo_map = ...` but was never assigned: a `NameError`. */
    | UnboundTempo

  /** The writes the task attempts, in order, and how it ends. */
  datatype Run = Run(writes: seq<TableWrite>, error: Option<PipelineError>)

  /** `lang_map` as the movie step sees it; only read when `original_language` exists. */
  function LangMapOf(df: Frame): map<string, int> {
    if OriginalLanguage in df.columns then LanguageMap(LanguageDimension(df.rows)) else map[]
  }

  /**
   * `tempo_map` as the fact step sees it. Without `release_date` the source
   * never gets there; the intended run uses the empty map.
   */
  function TempoMapOf(df: Frame, parse: DateParser): map<int, int> {
    if ReleaseDate in df.columns then TempoMap(TimeDimension(df.rows, parse)) else map[]
  }

  /** The tables of one list-valued column, when it explodes to some rows. */
  function ItemTablesFor(df: Frame, md5: Md5, col: ItemColumn): Option<ItemTables> {
    match Exploded(df, col)
    case None => None
    case Some(items) => Some(ItemTablesOf(md5, items))
  }

  /** What each step computes from the frame, before anything is written. */
  datatype Outputs = Outputs(
    languages: seq<Language>,
    movies: seq<Movie>,
    times: seq<TempoRecord>,
    facts: seq<Fact>,
    genres: Option<ItemTables>,
    companies: Option<ItemTables>,
    countries: Option<ItemTables>,
    keywords: Option<ItemTables>)

  /** The tables of one list-valued column among the outputs. */
  function ItemsOf(o: Outputs, col: ItemColumn): Option<ItemTables> {
    match col
    case Genres => o.genres
    case ProductionCompanies => o.companies
    case ProductionCountries => o.countries
    case Keywords => o.keywords
  }

  /** The step outputs for a frame. */
  function Compute(df: Frame, md5: Md5, parse: DateParser): Outputs {
    Outputs(
      LanguageDimension(df.rows),
      MovieDimension(df, LangMapOf(df)),
      TempoRecords(TimeDimension(df.rows, parse)),
      FactRows(df, TempoMapOf(df, parse)),
      ItemTablesFor(df, md5, Genres),
      ItemTablesFor(df, md5, ProductionCompanies),
      ItemTablesFor(df, md5, ProductionCountries),
      ItemTablesFor(df, md5, Keywords))
  }

  /** The writes before the time step: `Dim_Idioma` when `original_language` exists, then `Dim_Filme`. */
  function HeadOf(cols: set<Column>, o: Outputs): seq<TableWrite> {
    (if OriginalLanguage in cols then [TableWrite(DimIdioma, IdiomaTable(o.languages))] else [])
      + [TableWrite(DimFilme, FilmeTable(o.movies))]
  }

  /** The dimension and bridge writes of one column, if it exploded to some rows. */
  function ItemWritesOf(col: ItemColumn, t: Option<ItemTables>): seq<TableWrite> {
    match t
    case None => []
    case Some(tables) => [TableWrite(DimItem(col), ItemTable(tables.dimension)), TableWrite(BridgeItem(col), BridgeTable(tables.bridge))]
  }

  /** The writes after the time step: `Fato_Filme`, then genres, companies, countries and keywords. */
  function TailOf(o: Outputs): seq<TableWrite> {
    [TableWrite(FatoFilme, FatoTable(o.facts))]
      + ItemWritesOf(Genres, o.genres) + ItemWritesOf(ProductionCompanies, o.companies)
      + ItemWritesOf(ProductionCountries, o.countries) + ItemWritesOf(Keywords, o.keywords)
  }

  /** The run as written: without `release_date` it stops at `tempo_map`. */
  function WrittenRun(cols: set<Column>, o: Outputs): Run {
    if ReleaseDate !in cols then Run(HeadOf(cols, o), Some(UnboundTempo))
    else Run(HeadOf(cols, o) + [TableWrite(DimTempo, TempoTable(o.times))] + TailOf(o), None)
  }

  /** The run as evidently intended: without `release_date` it skips `Dim_Tempo` and carries on. */
  function IntendedRunOf(cols: set<Column>, o: Outputs): Run {
    if ReleaseDate !in cols then Run(HeadOf(cols, o) + TailOf(o), None)
    else WrittenRun(cols, o)
  }

  /** `task_transform_and_load` on a frame, as evidently intended. */
  function IntendedRun(df: Frame, md5: Md5, parse: DateParser): Run {
    IntendedRunOf(df.columns, Compute(df, md5, parse))
  }

  /** The writes that reach the database: `write_table_engine` ignores an empty table. */
  function Persisted(ws: seq<TableWrite>): seq<TableWrite> {
    if ws == [] then []
    else
      var n := |ws| - 1;
      Persisted(ws[..n]) + (if Size(ws[n].table) == 0 then [] else [ws[n]])
  }

  /** The tables after the writes, each non-empty write replacing its table (`if_exists="replace"`). */
  function Store(tables: map<TableName, Table>, ws: seq<TableWrite>): map<TableName, Table> {
    if ws == [] then tables
    else
      var n := |ws| - 1;
      var before := Store(tables, ws[..n]);
      if Size(ws[n].table) == 0 then before else before[ws[n].name := ws[n].table]
  }

  /** No table is written twice. */
  predicate DistinctNames(ws: seq<TableWrite>) {
    forall i, j :: 0 <= i < j < |ws| ==> ws[i].name != ws[j].name
  }

  lemma PersistedSnoc(ws: seq<TableWrite>, w: TableWrite)
    ensures Persisted(ws + [w]) == Persisted(ws) + (if Size(w.table) == 0 then [] else [w])
  {
    assert (ws + [w])[..|ws|] == ws;
  }

  lemma StoreSnoc(tables: map<TableName, Table>, ws: seq<TableWrite>, w: TableWrite)
    ensures Store(tables, ws + [w]) == if Size(w.table) == 0 then Store(tables, ws) else Store(tables, ws)[w.name := w.table]
  {
    assert (ws + [w])[..|ws|] == ws;
  }

  /**
   * With distinct names, every non-empty write survives to the end, and a
   * table no non-empty write names keeps its old contents.
   */
  lemma {:induction false} StoreDistinct(tables: map<TableName, Table>, ws: seq<TableWrite>, name: TableName)
    requires DistinctNames(ws)
    ensures forall i :: 0 <= i < |ws| && ws[i].name == name && Size(ws[i].table) > 0 ==>
      name in Store(tables, ws) && Store(tables, ws)[name] == ws[i].table
    ensures (forall i :: 0 <= i < |ws| && ws[i].name == name ==> Size(ws[i].table) == 0) ==>
      (name in Store(tables, ws) <==> name in tables) && (name in tables ==> Store(tables, ws)[name] == tables[name])
  {
    if ws != [] {
      var n := |ws| - 1;
      StoreDistinct(tables, ws[..n], name);
      forall i | 0 <= i < n && ws[i].name == name && Size(ws[i].table) > 0
        ensures name in Store(tables, ws) && Store(tables, ws)[name] == ws[i].table
      {
        assert ws[..n][i] == ws[i];
        assert ws[n].name != name;
      }
      if forall i :: 0 <= i < |ws| && ws[i].name == name ==> Size(ws[i].table) == 0 {
        assert forall i :: 0 <= i < n && ws[..n][i].name == name ==> Size(ws[..n][i].table) == 0 by {
          forall i | 0 <= i < n && ws[..n][i].name == name
            ensures Size(ws[..n][i].table) == 0
          {
            assert ws[..n][i] == ws[i];
          }
        }
      }
    }
  }

  /** Joining two write lists without a common name keeps names distinct. */
  lemma DistinctConcat(a: seq<TableWrite>, b: seq<TableWrite>)
    requires DistinctNames(a) && DistinctNames(b)
    requires forall i, j :: 0 <= i < |a| && 0 <= j < |b| ==> a[i].name != b[j].name
    ensures DistinctNames(a + b)
  {
    var ab := a + b;
    forall i, j | 0 <= i < j < |ab|
      ensures ab[i].name != ab[j].name
    {
      if j < |a| {
        assert ab[i] == a[i] && ab[j] == a[j];
      } else if i < |a| {
        assert ab[i] == a[i] && ab[j] == b[j - |a|];
      } else {
        assert ab[i] == b[i - |a|] && ab[j] == b[j - |a|];
      }
    }
  }

  /** Names within one item column's writes. */
  predicate ColumnNames(ws: seq<TableWrite>, col: ItemColumn) {
    DistinctNames(ws) && forall i :: 0 <= i < |ws| ==> ws[i].name in {DimItem(col), BridgeItem(col)}
  }

  /** An item column writes at most its own two tables, once each. */
  lemma ItemWritesNames(col: ItemColumn, t: Option<ItemTables>)
    ensures ColumnNames(ItemWritesOf(col, t), col)
  {
  }

  /** The head writes `Dim_Idioma` at most once and then `Dim_Filme`. */
  lemma HeadNames(cols: set<Column>, o: Outputs)
    ensures DistinctNames(HeadOf(cols, o))
    ensures forall i :: 0 <= i < |HeadOf(cols, o)| ==> HeadOf(cols, o)[i].name in {DimIdioma, DimFilme}
    ensures HeadOf(cols, o)[|HeadOf(cols, o)| - 1] == TableWrite(DimFilme, FilmeTable(o.movies))
  {
  }

  /** The fact write followed by the four columns' writes repeats no name and names no head or time table. */
  lemma TailShape(f: TableWrite, g: seq<TableWrite>, c: seq<TableWrite>, p: seq<TableWrite>, k: seq<TableWrite>)
    requires f.name == FatoFilme
    requires ColumnNames(g, Genres) && ColumnNames(c, ProductionCompanies)
    requires ColumnNames(p, ProductionCountries) && ColumnNames(k, Keywords)
    ensures DistinctNames([f] + g + c + p + k)
    ensures forall i :: 0 <= i < |[f] + g + c + p + k| ==> ([f] + g + c + p + k)[i].name !in {DimIdioma, DimFilme, DimTempo}
  {
    DistinctConcat([f], g);
    DistinctConcat([f] + g, c);
    DistinctConcat([f] + g + c, p);
    DistinctConcat([f] + g + c + p, k);
  }

  /** The tail writes `Fato_Filme` first, then item tables, none twice, never a head or time table. */
  lemma TailNames(o: Outputs)
    ensures DistinctNames(TailOf(o))
    ensures forall i :: 0 <= i < |TailOf(o)| ==> TailOf(o)[i].name !in {DimIdioma, DimFilme, DimTempo}
    ensures TailOf(o)[0] == TableWrite(FatoFilme, FatoTable(o.facts))
  {
    ItemWritesNames(Genres, o.genres);
    ItemWritesNames(ProductionCompanies, o.companies);
    ItemWritesNames(ProductionCountries, o.countries);
    ItemWritesNames(Keywords, o.keywords);
    TailShape(TableWrite(FatoFilme, FatoTable(o.facts)),
      ItemWritesOf(Genres, o.genres), ItemWritesOf(ProductionCompanies, o.companies),
      ItemWritesOf(ProductionCountries, o.countries), ItemWritesOf(Keywords, o.keywords));
  }

  /** Neither run writes a table twice. */
  lemma RunNamesDistinct(cols: set<Column>, o: Outputs)
    ensures DistinctNames(WrittenRun(cols, o).writes)
    ensures DistinctNames(IntendedRunOf(cols, o).writes)
  {
    var h := HeadOf(cols, o);
    HeadNames(cols, o);
    TailNames(o);
    var tw := [TableWrite(DimTempo, TempoTable(o.times))];
    DistinctConcat(h, tw);
    DistinctConcat(h + tw, TailOf(o));
    DistinctConcat(h, TailOf(o));
  }

  /**
   * After the run, each table it wrote with rows holds exactly what its
   * step computed, and every other table is as before.
   */
  lemma RunStore(df: Frame, md5: Md5, parse: DateParser, tables: map<TableName, Table>, name: TableName)
    ensures var ws := IntendedRun(df, md5, parse).writes;
      && (forall i :: 0 <= i < |ws| && ws[i].name == name && Size(ws[i].table) > 0 ==>
            name in Store(tables, ws) && Store(tables, ws)[name] == ws[i].table)
      && ((forall i :: 0 <= i < |ws| && ws[i].name == name ==> Size(ws[i].table) == 0) ==>
            (name in Store(tables, ws) <==> name in tables) && (name in tables ==> Store(tables, ws)[name] == tables[name]))
  {
    RunNamesDistinct(df.columns, Compute(df, md5, parse));
    StoreDistinct(tables, IntendedRun(df, md5, parse).writes, name);
  }

  /**
   * Without `release_date` the run as written fails at `tempo_map`, having
   * written only `Dim_Idioma` (with `original_language`) and `Dim_Filme`:
   * no time, fact or item table is written.
   */
  lemma MissingReleaseDateFails(cols: set<Column>, o: Outputs)
    requires ReleaseDate !in cols
    ensures var run := WrittenRun(cols, o);
      && run.error == Some(UnboundTempo)
      && |run.writes| == (if OriginalLanguage in cols then 2 else 1)
      && run.writes[|run.writes| - 1] == TableWrite(DimFilme, FilmeTable(o.movies))
      && (forall i :: 0 <= i < |run.writes| ==> run.writes[i].name in {DimIdioma, DimFilme})
  {
    HeadNames(cols, o);
  }

  /**
   * The intended run never fails. Without `release_date` it writes no
   * `Dim_Tempo` and still writes `Fato_Filme` and the item tables; with it,
   * it is the run as written.
   */
  lemma IntendedRunSpec(cols: set<Column>, o: Outputs)
    ensures IntendedRunOf(cols, o).error.None?
    ensures ReleaseDate in cols ==> IntendedRunOf(cols, o) == WrittenRun(cols, o)
    ensures ReleaseDate !in cols ==>
      && (forall i :: 0 <= i < |IntendedRunOf(cols, o).writes| ==> IntendedRunOf(cols, o).writes[i].name != DimTempo)
      && TableWrite(FatoFilme, FatoTable(o.facts)) in IntendedRunOf(cols, o).writes
  {
    if ReleaseDate !in cols {
      var h := HeadOf(cols, o);
      var tail := TailOf(o);
      var ws := h + tail;
      HeadNames(cols, o);
      TailNames(o);
      forall i | 0 <= i < |ws|
        ensures ws[i].name != DimTempo
      {
        if i < |h| {
          assert ws[i] == h[i];
        } else {
          assert ws[i] == tail[i - |h|];
        }
      }
      assert ws[|h|] == tail[0];
    }
  }

  /** Without `release_date`, the intended fact table has no time key at all. */
  lemma IntendedFactsNoTime(df: Frame, md5: Md5, parse: DateParser)
    requires ReleaseDate !in df.columns
    ensures forall k :: 0 <= k < |Compute(df, md5, parse).facts| ==> Compute(df, md5, parse).facts[k].idTempo.None?
  {
  }

  /**
   * A column's tables are computed exactly when it explodes to some rows,
   * and then the dimension has rows, so the sink always writes it.
   */
  lemma ItemTablesSpec(df: Frame, md5: Md5, col: ItemColumn)
    ensures ItemTablesFor(df, md5, col).Some? <==> Exploded(df, col).Some?
    ensures ItemTablesFor(df, md5, col).Some? ==> |ItemTablesFor(df, md5, col).value.dimension| > 0
  {
    if Exploded(df, col).Some? {
      DimensionNonEmpty(md5, Exploded(df, col).value);
    }
  }

  /** Appending the tail's parts one by one appends the tail. */
  lemma Regroup(h: seq<TableWrite>, f: seq<TableWrite>, g: seq<TableWrite>, c: seq<TableWrite>, p: seq<TableWrite>, k: seq<TableWrite>)
    ensures h + f + g + c + p + k == h + (f + g + c + p + k)
  {
  }

  /** The database the task writes to: its tables by name, and the non-empty writes in order. */
  class Warehouse {
    var tables: map<TableName, Table>
    var log: seq<TableWrite>

    constructor (initial: map<TableName, Table>)
      ensures tables == initial && log == []
    {
      tables := initial;
      log := [];
    }

    /** `write_table_engine(df, name, engine, if_exists="replace")`: an empty table is ignored. */
    method WriteTableEngine(w: TableWrite)
      modifies this
      ensures Size(w.table) == 0 ==> tables == old(tables) && log == old(log)
      ensures Size(w.table) > 0 ==> tables == old(tables)[w.name := w.table] && log == old(log) + [w]
    {
      if Size(w.table) == 0 {
        return;
      }
      tables := tables[w.name := w.table];
      log := log + [w];
    }

    /** One attempted write, keeping the log and tables in step with `Persisted` and `Store`. */
    method Step(ghost tables0: map<TableName, Table>, ghost log0: seq<TableWrite>, ghost done: seq<TableWrite>, w: TableWrite)
      modifies this
      requires tables == Store(tables0, done) && log == log0 + Persisted(done)
      ensures tables == Store(tables0, done + [w]) && log == log0 + Persisted(done + [w])
    {
      PersistedSnoc(done, w);
      StoreSnoc(tables0, done, w);
      WriteTableEngine(w);
    }

    /** The item step of one list-valued column: explode, then write the dimension and the bridge. */
    method WriteItemTables(ghost tables0: map<TableName, Table>, ghost log0: seq<TableWrite>, ghost done: seq<TableWrite>,
                           df: Frame, md5: Md5, col: ItemColumn)
      modifies this
      requires tables == Store(tables0, done) && log == log0 + Persisted(done)
      ensures tables == Store(tables0, done + ItemWritesOf(col, ItemTablesFor(df, md5, col)))
      ensures log == log0 + Persisted(done + ItemWritesOf(col, ItemTablesFor(df, md5, col)))
    {
      if Items(col) !in df.columns {
        assert done + [] == done;
        return;
      }
      var exploded := ExplodeJsonColumn(df, col);
      if exploded.None? {
        assert done + [] == done;
        return;
      }
      var items := exploded.value;
      var dim := TableWrite(DimItem(col), ItemTable(ItemDimension(md5, items)));
      var bridge := TableWrite(BridgeItem(col), BridgeTable(Bridge(md5, items)));
      Step(tables0, log0, done, dim);
      Step(tables0, log0, done + [dim], bridge);
      assert done + [dim] + [bridge] == done + [dim, bridge];
    }

    /**
     * The task, step by step, as written: `tempo` is bound only when the
     * frame has `release_date`, so without it the task stops at `tempo_map`
     * with the head tables written and reports the error.
     */
    method TransformAndLoad(df: Frame, md5: Md5, parse: DateParser) returns (err: Option<PipelineError>)
      modifies this
      ensures err == WrittenRun(df.columns, Compute(df, md5, parse)).error
      ensures tables == Store(old(tables), WrittenRun(df.columns, Compute(df, md5, parse)).writes)
      ensures log == old(log) + Persisted(WrittenRun(df.columns, Compute(df, md5, parse)).writes)
    {
      ghost var o := Compute(df, md5, parse);
      ghost var tables0 := tables;
      ghost var log0 := log;
      ghost var done: seq<TableWrite> := [];
      var langMap: map<string, int> := map[];
      if OriginalLanguage in df.columns {
        var langs := LanguageDimension(df.rows);
        var w := TableWrite(DimIdioma, IdiomaTable(langs));
        Step(tables0, log0, done, w);
        done := done + [w];
        langMap := BuildLanguageMap(langs);
      }
      assert langMap == LangMapOf(df);
      var filme := TableWrite(DimFilme, FilmeTable(MovieDimension(df, langMap)));
      Step(tables0, log0, done, filme);
      done := done + [filme];
      assert done == HeadOf(df.columns, o);
      var tempo: Option<seq<TimeRow>> := None;
      if ReleaseDate in df.columns {
        tempo := Some(TimeDimension(df.rows, parse));
        var dimTempo := TableWrite(DimTempo, TempoTable(TempoRecords(tempo.value)));
        assert dimTempo == TableWrite(DimTempo, TempoTable(o.times));
        Step(tables0, log0, done, dimTempo);
        done := done + [dimTempo];
      }
      if tempo.None? {
        return Some(UnboundTempo);
      }
      var tempoMap := BuildTempoMap(tempo.value);
      assert tempoMap == TempoMapOf(df, parse);
      ghost var head := done;
      var fato := TableWrite(FatoFilme, FatoTable(FactRows(df, tempoMap)));
      assert fato == TableWrite(FatoFilme, FatoTable(o.facts));
      Step(tables0, log0, done, fato);
      done := done + [fato];
      WriteItemTables(tables0, log0, done, df, md5, Genres);
      done := done + ItemWritesOf(Genres, o.genres);
      WriteItemTables(tables0, log0, done, df, md5, ProductionCompanies);
      done := done + ItemWritesOf(ProductionCompanies, o.companies);
      WriteItemTables(tables0, log0, done, df, md5, ProductionCountries);
      done := done + ItemWritesOf(ProductionCountries, o.countries);
      WriteItemTables(tables0, log0, done, df, md5, Keywords);
      done := done + ItemWritesOf(Keywords, o.keywords);
      Regroup(head, [fato], ItemWritesOf(Genres, o.genres), ItemWritesOf(ProductionCompanies, o.companies),
        ItemWritesOf(ProductionCountries, o.countries), ItemWritesOf(Keywords, o.keywords));
      assert done == WrittenRun(df.columns, o).writes;
      err := None;
    }
  }
}
