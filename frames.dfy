/**
 * The bronze frame that `task_transform_and_load` reads back from the
 * cleaned CSV: one row per CSV line, each cell either a value or missing
 * (`NaN`). Columns that the modeller tests with `in df.columns` are listed
 * in the frame's column set; the others are assumed present.
 */
module Frames {
  import opened Wrappers

  /** The descriptive movie columns `Dim_Filme` carries through unchanged. */
  datatype MovieText = MovieText(
    title: Option<string>,
    originalTitle: Option<string>,
    status: Option<string>,
    overview: Option<string>,
    homepage: Option<string>,
    imdbId: Option<string>,
    tagline: Option<string>,
    backdropPath: Option<string>,
    posterPath: Option<string>)

  /**
   * The measure columns `Fato_Filme` carries through unchanged. Their
   * numeric values are never computed with, so they stay opaque reals.
   */
  datatype Metrics = Metrics(
    budget: Option<real>,
    revenue: Option<real>,
    popularity: Option<real>,
    voteAverage: Option<real>,
    voteCount: Option<real>,
    runtime: Option<real>,
    adult: bool)

  /** The four list-valued text columns that get a dimension and a bridge each. */
  datatype ItemColumn = Genres | ProductionCompanies | ProductionCountries | Keywords

  /** The columns whose presence the modeller tests. */
  datatype Column = OriginalLanguage | ReleaseDate | Items(item: ItemColumn)

  /** One line of the bronze CSV. */
  datatype Row = Row(
    id: Option<int>,
    text: MovieText,
    originalLanguage: Option<string>,
    releaseDate: Option<string>,
    metrics: Metrics,
    genres: Option<string>,
    productionCompanies: Option<string>,
    productionCountries: Option<string>,
    keywords: Option<string>)

  /** A data frame: the optional columns it has, and its rows in index order. */
  datatype Frame = Frame(columns: set<Column>, rows: seq<Row>)

  /** `row[col]` for a list-valued column. */
  function ItemCell(r: Row, col: ItemColumn): Option<string> {
    match col
    case Genres => r.genres
    case ProductionCompanies => r.productionCompanies
    case ProductionCountries => r.productionCountries
    case Keywords => r.keywords
  }

  /** The `id` of a row, the key `drop_duplicates(subset=["id"])` compares. */
  function RowId(r: Row): Option<int> {
    r.id
  }
}
