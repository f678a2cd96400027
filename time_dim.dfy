/**
 * `Dim_Tempo` and `tempo_map`: the distinct (`id`, `release_date`) pairs
 * with both values present, whose date parses, each numbered by its row's
 * position in the frame plus one, with year, month, quarter and decade;
 * and the dictionary from a film to the number of its last such row.
 */
module TimeDim {
  import opened Wrappers
  import opened Collections
  import opened Frames

  type Month = m: int | 1 <= m <= 12 witness 1
  type Day = d: int | 1 <= d <= 31 witness 1

  /** A parsed `release_date`. */
  datatype Date = Date(year: int, month: Month, day: Day)

  /**
   * `pd.to_datetime(column, errors="coerce")`, read at one position: the
   * format is inferred from the whole column, so the whole column is an
   * argument; `None` is a value that does not parse (`NaT`).
   */
  type DateParser = (seq<string>, nat) -> Option<Date>

  /** A row of `df[["id", "release_date"]].dropna()`: its frame position and both values. */
  datatype Candidate = Candidate(pos: nat, filmId: int, raw: string)

  /** The rows with both an `id` and a `release_date`, in frame order. */
  function Candidates(rows: seq<Row>): seq<Candidate> {
    if rows == [] then []
    else
      var n := |rows| - 1;
      Candidates(rows[..n])
        + (if rows[n].id.Some? && rows[n].releaseDate.Some? then [Candidate(n, rows[n].id.value, rows[n].releaseDate.value)] else [])
  }

  /** Every candidate is a frame row with both values present, and positions increase. */
  lemma {:induction false} CandidatesFromRows(rows: seq<Row>)
    ensures forall c :: c in Candidates(rows) ==>
      c.pos < |rows| && rows[c.pos].id == Some(c.filmId) && rows[c.pos].releaseDate == Some(c.raw)
    ensures forall i, j :: 0 <= i < j < |Candidates(rows)| ==> Candidates(rows)[i].pos < Candidates(rows)[j].pos
  {
    if rows != [] {
      var n := |rows| - 1;
      var init := rows[..n];
      CandidatesFromRows(init);
      forall c | c in Candidates(init)
        ensures c.pos < n && rows[c.pos] == init[c.pos]
      {
      }
    }
  }

  /** A frame row with both values present is a candidate. */
  lemma {:induction false} CandidatesComplete(rows: seq<Row>, r: nat)
    requires r < |rows| && rows[r].id.Some? && rows[r].releaseDate.Some?
    ensures Candidate(r, rows[r].id.value, rows[r].releaseDate.value) in Candidates(rows)
  {
    var n := |rows| - 1;
    if r < n {
      assert rows[..n][r] == rows[r];
      CandidatesComplete(rows[..n], r);
    }
  }

  /** The pair `drop_duplicates()` compares. */
  function PairKey(c: Candidate): (int, string) {
    (c.filmId, c.raw)
  }

  /** `.drop_duplicates()`: each (`id`, `release_date`) pair once, at its first row. */
  function DistinctPairs(rows: seq<Row>): seq<Candidate> {
    DedupBy(Candidates(rows), PairKey)
  }

  /** The raw `release_date` column handed to the date parser. */
  function RawColumn(cs: seq<Candidate>): (col: seq<string>)
    ensures |col| == |cs| && forall k :: 0 <= k < |cs| ==> col[k] == cs[k].raw
  {
    seq(|cs|, k requires 0 <= k < |cs| => cs[k].raw)
  }

  /** The parsed column. */
  function ParseColumn(cs: seq<Candidate>, parse: DateParser): (ds: seq<Option<Date>>)
    ensures |ds| == |cs| && forall k :: 0 <= k < |cs| ==> ds[k] == parse(RawColumn(cs), k)
  {
    var col := RawColumn(cs);
    seq(|cs|, k requires 0 <= k < |cs| => parse(col, k))
  }

  /** One row of `tempo`; `Dim_Tempo` is written without `id_filme`. */
  datatype TimeRow = TimeRow(idTempo: int, idFilme: int, releaseDate: Date, ano: int, mes: Month, trimestre: int, decada: int)

  /** `dt.quarter`. */
  function Quarter(m: Month): int {
    (m - 1) / 3 + 1
  }

  /** `(ano // 10) * 10`; Dafny's `/` by a positive divisor is Python's floor division. */
  function Decade(y: int): int {
    (y / 10) * 10
  }

  /** The row built for a candidate whose date parsed; `id_tempo = index + 1`. */
  function TimeRowOf(c: Candidate, d: Date): TimeRow {
    TimeRow(c.pos + 1, c.filmId, d, d.year, d.month, Quarter(d.month), Decade(d.year))
  }

  /** `dropna(subset=["release_date"])` after parsing: the candidates whose date parsed, in order. */
  function TimeRows(cs: seq<Candidate>, ds: seq<Option<Date>>): seq<TimeRow>
    requires |cs| == |ds|
  {
    if cs == [] then []
    else
      var n := |cs| - 1;
      TimeRows(cs[..n], ds[..n]) + (if ds[n].Some? then [TimeRowOf(cs[n], ds[n].value)] else [])
  }

  /** `tempo` as written to `Dim_Tempo`, with `id_filme` kept for `tempo_map`. */
  function TimeDimension(rows: seq<Row>, parse: DateParser): seq<TimeRow> {
    var cs := DistinctPairs(rows);
    TimeRows(cs, ParseColumn(cs, parse))
  }

  /** The quarter holds the month, and the decade the year. */
  lemma CalendarFields(c: Candidate, d: Date)
    ensures var t := TimeRowOf(c, d);
      && t.ano == d.year && t.mes == d.month
      && 1 <= t.trimestre <= 4 && 3 * (t.trimestre - 1) < t.mes <= 3 * t.trimestre
      && t.decada % 10 == 0 && t.decada <= t.ano < t.decada + 10
  {
  }

  /** A time row is kept exactly when its candidate's date parsed. */
  lemma {:induction false} TimeRowsMember(cs: seq<Candidate>, ds: seq<Option<Date>>, t: TimeRow)
    requires |cs| == |ds|
    ensures t in TimeRows(cs, ds) <==> exists k :: 0 <= k < |cs| && ds[k].Some? && t == TimeRowOf(cs[k], ds[k].value)
  {
    if cs != [] {
      var n := |cs| - 1;
      TimeRowsMember(cs[..n], ds[..n], t);
      if exists k :: 0 <= k < n && ds[..n][k].Some? && t == TimeRowOf(cs[..n][k], ds[..n][k].value) {
        var k :| 0 <= k < n && ds[..n][k].Some? && t == TimeRowOf(cs[..n][k], ds[..n][k].value);
        assert cs[k] == cs[..n][k] && ds[k] == ds[..n][k];
      }
      if exists k :: 0 <= k < |cs| && ds[k].Some? && t == TimeRowOf(cs[k], ds[k].value) {
        var k :| 0 <= k < |cs| && ds[k].Some? && t == TimeRowOf(cs[k], ds[k].value);
        if k < n {
          assert cs[..n][k] == cs[k] && ds[..n][k] == ds[k];
        }
      }
    }
  }

  /** With candidate positions increasing, `id_tempo` strictly increases down the table. */
  lemma {:induction false} TimeRowsIncreasing(cs: seq<Candidate>, ds: seq<Option<Date>>)
    requires |cs| == |ds|
    requires forall i, j :: 0 <= i < j < |cs| ==> cs[i].pos < cs[j].pos
    ensures forall i, j :: 0 <= i < j < |TimeRows(cs, ds)| ==> TimeRows(cs, ds)[i].idTempo < TimeRows(cs, ds)[j].idTempo
  {
    if cs != [] {
      var n := |cs| - 1;
      var init := TimeRows(cs[..n], ds[..n]);
      TimeRowsIncreasing(cs[..n], ds[..n]);
      if ds[n].Some? {
        forall i | 0 <= i < |init|
          ensures init[i].idTempo < cs[n].pos + 1
        {
          TimeRowsMember(cs[..n], ds[..n], init[i]);
          var k :| 0 <= k < n && ds[..n][k].Some? && init[i] == TimeRowOf(cs[..n][k], ds[..n][k].value);
          assert cs[..n][k] == cs[k];
        }
      }
    }
  }

  /** `id_tempo` strictly increases, so no two time rows share a number. */
  lemma TimeIdsIncreasing(rows: seq<Row>, parse: DateParser)
    ensures var t := TimeDimension(rows, parse);
      forall i, j :: 0 <= i < j < |t| ==> t[i].idTempo < t[j].idTempo
  {
    var cs := DistinctPairs(rows);
    DistinctPairsIncreasing(rows);
    TimeRowsIncreasing(cs, ParseColumn(cs, parse));
  }

  /** A candidate's frame position, as the rank `drop_duplicates` keeps in order. */
  function Position(c: Candidate): int {
    c.pos
  }

  /** The deduplicated pairs keep the frame order of their rows. */
  lemma DistinctPairsIncreasing(rows: seq<Row>)
    ensures var cs := DistinctPairs(rows);
      forall i, j :: 0 <= i < j < |cs| ==> cs[i].pos < cs[j].pos
  {
    var cs := DistinctPairs(rows);
    var all := Candidates(rows);
    CandidatesFromRows(rows);
    assert forall i, j :: 0 <= i < j < |all| ==> Position(all[i]) < Position(all[j]);
    DedupByKeepsOrder(all, PairKey, Position);
    forall i, j | 0 <= i < j < |cs|
      ensures cs[i].pos < cs[j].pos
    {
      assert Position(cs[i]) < Position(cs[j]);
    }
  }

  /**
   * Each time row comes from a deduplicated pair whose date parsed:
   * `id_tempo - 1` is that pair's frame position.
   */
  lemma TimeRowParsed(rows: seq<Row>, parse: DateParser, t: TimeRow)
    requires t in TimeDimension(rows, parse)
    ensures exists k :: (0 <= k < |DistinctPairs(rows)| && DistinctPairs(rows)[k].pos == t.idTempo - 1
      && DistinctPairs(rows)[k].filmId == t.idFilme && parse(RawColumn(DistinctPairs(rows)), k) == Some(t.releaseDate))
  {
    var cs := DistinctPairs(rows);
    var ds := ParseColumn(cs, parse);
    TimeRowsMember(cs, ds, t);
    var k :| 0 <= k < |cs| && ds[k].Some? && t == TimeRowOf(cs[k], ds[k].value);
  }

  /** Each time row points back at its frame row: position `id_tempo - 1` has that `id` and a `release_date`. */
  lemma TimeRowSource(rows: seq<Row>, parse: DateParser, t: TimeRow)
    requires t in TimeDimension(rows, parse)
    ensures RowHasDate(rows, t.idTempo, t.idFilme)
  {
    var cs := DistinctPairs(rows);
    TimeRowParsed(rows, parse, t);
    var k :| 0 <= k < |cs| && cs[k].pos == t.idTempo - 1 && cs[k].filmId == t.idFilme;
    CandidatesFromRows(rows);
    assert cs[k] in Candidates(rows);
  }

  /** Every (`id`, `release_date`) pair of the frame reaches the parser, once. */
  lemma PairsComplete(rows: seq<Row>, r: nat)
    requires r < |rows| && rows[r].id.Some? && rows[r].releaseDate.Some?
    ensures exists k :: (0 <= k < |DistinctPairs(rows)|
      && DistinctPairs(rows)[k].filmId == rows[r].id.value && DistinctPairs(rows)[k].raw == rows[r].releaseDate.value)
    ensures forall k1, k2 ::
      (0 <= k1 < k2 < |DistinctPairs(rows)| && DistinctPairs(rows)[k1].filmId == rows[r].id.value
        && DistinctPairs(rows)[k1].raw == rows[r].releaseDate.value) ==>
      !(DistinctPairs(rows)[k2].filmId == rows[r].id.value && DistinctPairs(rows)[k2].raw == rows[r].releaseDate.value)
  {
    var c := Candidate(r, rows[r].id.value, rows[r].releaseDate.value);
    CandidatesComplete(rows, r);
    var all := Candidates(rows);
    var i :| 0 <= i < |all| && all[i] == c;
    assert PairKey(c) in KeysOf(DistinctPairs(rows), PairKey);
    KeysOfWitness(DistinctPairs(rows), PairKey, PairKey(c));
    var k :| 0 <= k < |DistinctPairs(rows)| && PairKey(DistinctPairs(rows)[k]) == PairKey(c);
  }

  /** The `id_filme` column. */
  function FilmColumn(t: seq<TimeRow>): (r: seq<int>)
    ensures |r| == |t| && forall i :: 0 <= i < |t| ==> r[i] == t[i].idFilme
  {
    seq(|t|, i requires 0 <= i < |t| => t[i].idFilme)
  }

  /** The `id_tempo` column. */
  function TempoColumn(t: seq<TimeRow>): (r: seq<int>)
    ensures |r| == |t| && forall i :: 0 <= i < |t| ==> r[i] == t[i].idTempo
  {
    seq(|t|, i requires 0 <= i < |t| => t[i].idTempo)
  }

  /** `dict(zip(tempo["id_filme"], tempo["id_tempo"]))`. */
  function TempoMap(t: seq<TimeRow>): map<int, int> {
    ZipMap(FilmColumn(t), TempoColumn(t))
  }

  /**
   * A film is mapped exactly when it has a time row, and then to the number
   * of its last time row: a film with several release dates keeps the last.
   */
  lemma TempoMapLast(t: seq<TimeRow>, i: nat)
    requires i < |t|
    ensures t[i].idFilme in TempoMap(t)
    ensures (forall j :: i < j < |t| ==> t[j].idFilme != t[i].idFilme) ==> TempoMap(t)[t[i].idFilme] == t[i].idTempo
  {
    var ks := FilmColumn(t);
    assert ks[i] == t[i].idFilme;
    if forall j :: i < j < |t| ==> t[j].idFilme != t[i].idFilme {
      forall j | i < j < |ks|
        ensures ks[j] != ks[i]
      {
        assert ks[j] == t[j].idFilme;
      }
      ZipMapLastWins(ks, TempoColumn(t), i);
    }
  }

  /** Every mapped number is the `id_tempo` of a time row of that film. */
  lemma TempoMapRefers(t: seq<TimeRow>, x: int)
    requires x in TempoMap(t)
    ensures exists i :: 0 <= i < |t| && t[i].idFilme == x && t[i].idTempo == TempoMap(t)[x]
  {
    var ks := FilmColumn(t);
    assert x in TempoMap(t).Keys;
    var i :| 0 <= i < |ks| && ks[i] == x;
    var last := LastIndexOf(ks, x, i);
    ZipMapLastWins(ks, TempoColumn(t), last);
  }

  /** The last position holding `x`, at or after a known one. */
  function LastIndexOf(ks: seq<int>, x: int, i: nat): (l: nat)
    requires i < |ks| && ks[i] == x
    ensures i <= l < |ks| && ks[l] == x
    ensures forall j :: l < j < |ks| ==> ks[j] != x
    decreases |ks| - i
  {
    if exists j :: i < j < |ks| && ks[j] == x then
      var j :| i < j < |ks| && ks[j] == x;
      LastIndexOf(ks, x, j)
    else i
  }

  /** Frame position `v - 1` holds film `x` with a `release_date`. */
  predicate RowHasDate(rows: seq<Row>, v: int, x: int) {
    1 <= v <= |rows| && rows[v - 1].id == Some(x) && rows[v - 1].releaseDate.Some?
  }

  /** Every time row points back at its frame row. */
  lemma TimeDimensionSourced(rows: seq<Row>, parse: DateParser)
    ensures forall i :: 0 <= i < |TimeDimension(rows, parse)| ==>
      RowHasDate(rows, TimeDimension(rows, parse)[i].idTempo, TimeDimension(rows, parse)[i].idFilme)
  {
    var t := TimeDimension(rows, parse);
    forall i | 0 <= i < |t|
      ensures RowHasDate(rows, t[i].idTempo, t[i].idFilme)
    {
      TimeRowSource(rows, parse, t[i]);
    }
  }

  /** When every time row points back at its frame row, so does every mapped number. */
  lemma TempoKeySource(rows: seq<Row>, t: seq<TimeRow>, x: int)
    requires forall i :: 0 <= i < |t| ==> RowHasDate(rows, t[i].idTempo, t[i].idFilme)
    requires x in TempoMap(t)
    ensures RowHasDate(rows, TempoMap(t)[x], x)
  {
    TempoMapRefers(t, x);
  }

  /** Builds `tempo_map` pair by pair. */
  method BuildTempoMap(t: seq<TimeRow>) returns (tempoMap: map<int, int>)
    ensures tempoMap == TempoMap(t)
  {
    tempoMap := DictZip(FilmColumn(t), TempoColumn(t));
  }
}
