# TMDB warehouse load, modelled in Dafny

This project models the transform-and-load step of an Airflow pipeline that
builds a small star schema from a cleaned TMDB movie CSV (the "bronze"
frame), together with the helper functions that step relies on:

- `name_to_int_id`: the stable 64-bit surrogate key made from the first 16 hex digits of a label's MD5 digest.
- `_try_parse_json_like`: a best-effort reader of list-of-object cells. It tries `json.loads`, then `json.loads` after quote swapping, then `ast.literal_eval`; then `{...}` fragments; then a plain comma list.
- `explode_json_column`: one row per comma-separated label of a list-valued column.
- The header and `adult` steps of `basic_clean`.
- The skip-empty guard of `write_table_engine`.
- `task_transform_and_load`, which writes, in order:
  - `Dim_Idioma` (numbered distinct languages);
  - `Dim_Filme` (the first row per `id`, with its language number);
  - `Dim_Tempo` (distinct parsed `(id, release_date)` pairs, keyed by frame position + 1, with year, month, quarter and decade);
  - `Fato_Filme` (the measures per film, with `id_tempo` from `tempo_map`);
  - a dimension and a bridge table each for genres, production companies, production countries and keywords.

Each file is one module:

| file | module | models |
|---|---|---|
| `wrappers.dfy` | `Wrappers` | `Option` and `Result` |
| `text.dfy` | `Text` | `str.strip`, `lower`, `replace`, `split`, `startswith` and the comma segments of a cell |
| `stable_id.dfy` | `StableId` | UTF-8 encoding, `hexdigest`, `int(_, 16)`, `name_to_int_id` |
| `collections.dfy` | `Collections` | `drop_duplicates` (`DedupBy`), `dict(zip(...))` (`ZipMap`, `DictZip`), flattening |
| `regex_scan.dfy` | `RegexScan` | the three regular expressions of `_try_parse_json_like` |
| `json_like.dfy` | `JsonLike` | `_try_parse_json_like` |
| `clean.dfy` | `Clean` | the header and `adult` steps of `basic_clean` |
| `frames.dfy` | `Frames` | the bronze frame |
| `explode.dfy` | `Explode` | `explode_json_column` |
| `language.dfy` | `LanguageDim` | `Dim_Idioma` and `lang_map` |
| `movie.dfy` | `MovieDim` | `Dim_Filme` |
| `time_dim.dfy` | `TimeDim` | `Dim_Tempo` and `tempo_map` |
| `fact.dfy` | `FactTable` | `Fato_Filme` |
| `item_dim.dfy` | `ItemDim` | the item dimensions and bridges |
| `pipeline.dfy` | `Pipeline` | the order of the writes, how the run ends, and the warehouse (`Warehouse`) the writes leave behind |

Outside collaborators are parameters:

- the MD5 function, as `Md5 = seq<byte> -> Digest`;
- `json.loads` and `ast.literal_eval` (`Parsers`), where `None` means "raised";
- `pd.to_datetime(..., errors="coerce")` (`DateParser`). It takes the whole column and a position, because pandas infers one format for the whole column.

The database is the `Warehouse` class: a map from table name to contents and a log of the writes that reached it. `write_table_engine` is its `WriteTableEngine` method, and `task_transform_and_load` is its `TransformAndLoad` method. The order of writes as the source is written is `Pipeline.WrittenRun`, and `TransformAndLoad` follows it, error included. `Pipeline.IntendedRun` is the corrected run, which differs only for a frame without `release_date` (see Findings).

## Model

| member | source | states |
|---|---|---|
| StableId.NameToIntId | airflow/scripts/extract_helpers.py:10-18 | the result is `None` exactly for `None` or a blank (white-space-only) label |
| StableId.DigestIdIsPrefixBytes | airflow/scripts/extract_helpers.py:17-18 | the id read from the first 16 hex digits equals the first eight digest bytes read big-endian, and is below 2^64 |
| StableId.NameToIntIdBound | airflow/scripts/extract_helpers.py:10-18 | every id produced lies in [0, 2^64) |
| StableId.NameToIntIdTrimInvariant | airflow/scripts/extract_helpers.py:14-18 | the id of a label equals the id of its stripped form |
| StableId.NameToIntIdStable | airflow/scripts/extract_helpers.py:14-18 | two labels that strip to the same text get the same id |
| StableId.ParseHexDigest | airflow/scripts/extract_helpers.py:17-18 | `int(hexdigest, 16)` reads back the digest bytes as a big-endian number (hex encode/decode round trip) |
| StableId.HexDigestPrefix | airflow/scripts/extract_helpers.py:18 | the first 2k hex digits of a digest are the hex digits of its first k bytes |
| StableId.BigEndianBound | airflow/scripts/extract_helpers.py:18 | n bytes read big-endian are below 256^n |
| Text.Strip | airflow/scripts/extract_helpers.py:14 | `strip()` leaves no white space at either end |
| Text.StripShape | airflow/scripts/extract_helpers.py:14 | `strip()` is a middle slice of the text with only white space cut from both ends |
| Text.StripIdempotent | airflow/scripts/extract_helpers.py:14 | stripping twice is stripping once |
| Text.StripEmptyIffBlank | airflow/scripts/extract_helpers.py:15 | `s.strip() == ""` exactly when `s` is white space only |
| Text.LowerAscii | airflow/scripts/extract_helpers.py:36 | lower-casing keeps the length, leaves no ASCII capital, turns each capital into its lower-case letter and leaves every other character as it was |
| Text.LowerAsciiIdempotent | airflow/scripts/extract_helpers.py:36 | lower-casing twice is lower-casing once |
| Text.JoinSplit | airflow/scripts/extract_helpers.py:135 | joining the pieces of `split(sep)` with `sep` gives back the text |
| Text.SplitPiecesFree | airflow/scripts/extract_helpers.py:135 | no piece of `split(sep)` holds the separator |
| Text.SplitAtFirst | airflow/scripts/extract_helpers.py:135 | the first separator ends the first piece of a split |
| Text.StrippedNonBlank | airflow/scripts/extract_helpers.py:72 | the kept pieces are non-empty and stripped, and there are no more of them than input pieces |
| Text.StrippedNonBlankComplete | airflow/scripts/extract_helpers.py:72 | every piece whose stripped form is non-empty is kept, stripped |
| Text.StrippedNonBlankAppend | airflow/scripts/extract_helpers.py:72 | the kept pieces of two blocks are those of the first block followed by those of the second, so input order is kept |
| Text.StrippedNonBlankFrom | airflow/scripts/extract_helpers.py:72 | each kept piece is the stripped form of an input piece |
| Text.SegmentShape | airflow/scripts/extract_helpers.py:135 | each comma segment of a cell is non-empty, stripped and comma-free |
| Collections.DedupBy | airflow/dags/tmdb_dag.py:115 | `drop_duplicates` keeps rows of the input, no two with the same key, covering every key of the input |
| Collections.DedupByKeepsFirst | airflow/dags/tmdb_dag.py:115 | each kept row is the first input row with its key |
| Collections.DedupByFirstSeenOrder | airflow/dags/tmdb_dag.py:87-88 | the kept rows appear in the order their keys are first seen |
| Collections.DedupByCount | airflow/dags/tmdb_dag.py:87 | the result has exactly one row per distinct key |
| Collections.DedupByKeepsOrder | airflow/dags/tmdb_dag.py:137 | if the input is increasing in some rank, so is the result |
| Collections.ZipMap | airflow/dags/tmdb_dag.py:102 | `dict(zip(ks, vs))` has exactly the keys in `ks` |
| Collections.ZipMapLastWins | airflow/dags/tmdb_dag.py:157 | a repeated key is bound to the value paired with its last occurrence |
| Collections.ZipMapDistinct | airflow/dags/tmdb_dag.py:102 | with distinct keys each key is bound to its own value |
| Collections.DictZip | airflow/dags/tmdb_dag.py:102 | the pair-by-pair loop builds exactly `ZipMap(ks, vs)` |
| Collections.FlatMapMember | airflow/scripts/extract_helpers.py:127-142 | an output appears exactly when some input element produces it |
| Collections.FlatMapAppend | airflow/scripts/extract_helpers.py:127-142 | flattening two blocks is flattening each and concatenating |
| Collections.FlatMapEmpty | airflow/scripts/extract_helpers.py:144-145 | nothing is produced exactly when no element produces anything |
| RegexScan.BraceMatches | airflow/scripts/extract_helpers.py:51-52 | every match of `\{[^}]*\}` opens with `{`, closes with `}` and holds no `}` inside |
| RegexScan.BraceSpansFrom | airflow/scripts/extract_helpers.py:51 | the matches are brace matches, in increasing, non-overlapping order |
| RegexScan.BraceSpansComplete | airflow/scripts/extract_helpers.py:51 | no match is missed: every position where a match starts lies inside a reported span, its own or an earlier overlapping one |
| RegexScan.NoOpenBraceNoMatch | airflow/scripts/extract_helpers.py:51 | text without `{` has no match |
| RegexScan.LooseId | airflow/scripts/extract_helpers.py:60 | a captured `id` is non-empty and free of `'`, `"`, `,`, `}` and `]` |
| RegexScan.LooseName | airflow/scripts/extract_helpers.py:61 | a captured `name` is non-empty and free of `'`, `"`, `,` and `}` |
| RegexScan.Capture | airflow/scripts/extract_helpers.py:60-61 | a `[^...]+` capture is non-empty and holds none of the excluded characters |
| RegexScan.SampleBraceMatches | airflow/scripts/extract_helpers.py:51 | on `{id: 28, name: Action}` the whole text is the one match |
| RegexScan.SampleLooseId | airflow/scripts/extract_helpers.py:60 | on `{id: 28, name: Action}` the `id` capture is `28` |
| RegexScan.SampleLooseName | airflow/scripts/extract_helpers.py:61 | on `{id: 28, name: Action}` the `name` capture is `Action` |
| JsonLike.TryParseJsonLike | airflow/scripts/extract_helpers.py:24-75 | the type dispatch followed by the text ladder returns exactly `ParseJsonLike(p, raw)` |
| JsonLike.ParseText | airflow/scripts/extract_helpers.py:35-75 | the text branch returns exactly what the classified strategy yields |
| JsonLike.FallbackValue | airflow/scripts/extract_helpers.py:49-75 | once every parser has failed, the result is the recovered fragments if any, else the comma list if its guard holds and it is non-empty, else `None` |
| JsonLike.FirstAttemptWins | airflow/scripts/extract_helpers.py:39-47 | the first of the three parsers to succeed gives the result, unchanged |
| JsonLike.RecoverFragments | airflow/scripts/extract_helpers.py:50-66 | the regex loop appends exactly `FragmentItems` of the brace matches |
| JsonLike.EmptyTokensGiveNone | airflow/scripts/extract_helpers.py:35-37 | blank text, `nan`/`none`/`null` in any case, and `[]`/`[ ]` give `None` |
| JsonLike.NonTextInputs | airflow/scripts/extract_helpers.py:26-33 | a list or tuple comes back as a list, a dict as a one-element list, and anything else that is not text as `None` |
| JsonLike.StrategyOrder | airflow/scripts/extract_helpers.py:39-47 | the first parser that succeeds decides the result, unchanged; the fragment and comma tiers run only when all three fail |
| JsonLike.FragmentItem | airflow/scripts/extract_helpers.py:52-66 | a fragment contributes exactly when it literal-parses to a dict or has a loose `id` or `name`; a literal dict is kept as parsed |
| JsonLike.LooseItem | airflow/scripts/extract_helpers.py:60-66 | the loose dict exists exactly when `id` or `name` matched; its `id` and `name` entries are the captures with quotes stripped, or `None` |
| JsonLike.Contribution | airflow/scripts/extract_helpers.py:52-66 | one fragment appends at most one item |
| JsonLike.FragmentItemsAppend | airflow/scripts/extract_helpers.py:51-66 | fragments contribute in order, each independently of the others |
| JsonLike.FragmentItemsExact | airflow/scripts/extract_helpers.py:51-68 | every recovered dict comes from a fragment; none is recovered exactly when no fragment contributes |
| JsonLike.CommaTier | airflow/scripts/extract_helpers.py:71-73 | the comma list is taken exactly for text with a comma, no `[`/`{` start, no colon and some non-blank segment, and it is the list of stripped non-blank segments |
| JsonLike.PlainListShape | airflow/scripts/extract_helpers.py:39-73 | a comma-list result means every parser and every fragment failed, the guard held, and the labels are the non-empty stripped comma segments |
| JsonLike.FallbackWithoutBraces | airflow/scripts/extract_helpers.py:49-75 | without a `{` the fragment tier recovers nothing and the comma tier decides |
| JsonLike.TwoLabelList | airflow/scripts/extract_helpers.py:24-75 | `a, b` for two plain labels that no parser accepts gives `[a, b]` |
| JsonLike.LooseFragmentExample | airflow/scripts/extract_helpers.py:49-68 | `{id: 28, name: Action}` that no parser accepts gives one dict whose `id` is the string `28` |
| JsonLike.QuoteSwapped | airflow/scripts/extract_helpers.py:41 | the swapped text has the same length and no single quote |
| Clean.StripHeadersClean | airflow/scripts/extract_helpers.py:86 | no column name keeps white space at either end, and stripping the names again changes nothing |
| Clean.BasicCleanShape | airflow/scripts/extract_helpers.py:83-114 | the header is stripped; only the `adult` cells change, each to its truth flag; shape is kept |
| Clean.BasicCleanFails | airflow/scripts/extract_helpers.py:109-112 | within the modelled steps, cleaning fails exactly when two columns strip to `adult` (the date and numeric failures are under Left out) |
| Clean.BasicCleanIdempotent | airflow/scripts/extract_helpers.py:83-114 | cleaning a cleaned frame changes nothing |
| Clean.AdultFlagOfFlag | airflow/scripts/extract_helpers.py:110-112 | a coerced flag reads back as itself |
| Clean.AdultFlagExamples | airflow/scripts/extract_helpers.py:110-112 | `Yes` and `1` are true; ` yes` (not stripped) and a missing value are false |
| Clean.IndicesOf | airflow/scripts/extract_helpers.py:109 | the positions found are exactly the columns with that name |
| Explode.ExplodeJsonColumn | airflow/scripts/extract_helpers.py:117-147 | the loop over the rows returns exactly `Exploded(df, col)` |
| Explode.AppendLabels | airflow/scripts/extract_helpers.py:137-142 | the inner loop appends one row per label, in label order |
| Explode.CellItemsMember | airflow/scripts/extract_helpers.py:128-142 | a row is emitted for a cell exactly when the cell is present and non-blank and the label is one of its comma segments |
| Explode.CellItemsShape | airflow/scripts/extract_helpers.py:128-142 | every row emitted for a cell carries the row's id, no item id, and a non-empty, stripped, comma-free label |
| Explode.ExplodeRowsMember | airflow/scripts/extract_helpers.py:127-142 | a row is emitted exactly when some frame row's cell emits it |
| Explode.ExplodeRowsShape | airflow/scripts/extract_helpers.py:135-142 | every emitted row has no item id and a non-empty, stripped, comma-free label |
| Explode.ExplodeRowsAppend | airflow/scripts/extract_helpers.py:127-142 | exploding two blocks of rows is exploding each and concatenating |
| Explode.ExplodeNone | airflow/scripts/extract_helpers.py:122-145 | `None` exactly when the column is missing or no cell yields a label |
| LanguageDim.Languages | airflow/dags/tmdb_dag.py:85-86 | `dropna` keeps no more rows than the frame has |
| LanguageDim.LanguagesMember | airflow/dags/tmdb_dag.py:85-86 | a language is kept exactly when some row has it |
| LanguageDim.LanguageNamesDistinct | airflow/dags/tmdb_dag.py:87 | no language is listed twice |
| LanguageDim.LanguageNamesComplete | airflow/dags/tmdb_dag.py:84-89 | a language is listed exactly when some row has it |
| LanguageDim.LanguageNamesOrder | airflow/dags/tmdb_dag.py:87 | languages are listed in order of first occurrence |
| LanguageDim.NumberedMapInverse | airflow/dags/tmdb_dag.py:102 | for rows numbered 1..n with distinct names, the map and the numbering are mutual inverses |
| LanguageDim.LanguageMapInverse | airflow/dags/tmdb_dag.py:84-102 | `lang_map` sends each listed language to its number, and every number it holds is the row of that language |
| LanguageDim.BuildLanguageMap | airflow/dags/tmdb_dag.py:102 | the loop builds exactly `lang_map` |
| MovieDim.MovieIdsDistinct | airflow/dags/tmdb_dag.py:115 | no `id` occurs twice in `Dim_Filme` |
| MovieDim.MovieIdsComplete | airflow/dags/tmdb_dag.py:113-117 | every `id` of the frame has a row in `Dim_Filme` |
| MovieDim.MovieFromFirstRow | airflow/dags/tmdb_dag.py:113-120 | each movie is built from the first frame row with its `id` |
| MovieDim.MovieLanguageKey | airflow/dags/tmdb_dag.py:119-120 | the language key is present exactly when the row has a language, and then it is that language's number in `Dim_Idioma` |
| MovieDim.LanguageKnown | airflow/dags/tmdb_dag.py:102 | every language of the frame is a key of `lang_map` |
| TimeDim.CandidatesFromRows | airflow/dags/tmdb_dag.py:137 | every pair kept by `dropna` is a frame row with both values, and positions increase |
| TimeDim.CandidatesComplete | airflow/dags/tmdb_dag.py:137 | every frame row with both values is kept by `dropna` |
| TimeDim.PairsComplete | airflow/dags/tmdb_dag.py:137 | every (`id`, `release_date`) pair of the frame survives `drop_duplicates` once |
| TimeDim.CalendarFields | airflow/dags/tmdb_dag.py:141-144 | year and month are copied; the quarter holds the month; the decade is a multiple of 10 holding the year |
| TimeDim.TimeRowsMember | airflow/dags/tmdb_dag.py:138-146 | a time row exists exactly for a pair whose date parsed |
| TimeDim.TimeRowsIncreasing | airflow/dags/tmdb_dag.py:146 | `id_tempo` increases along the rows when positions do |
| TimeDim.DistinctPairsIncreasing | airflow/dags/tmdb_dag.py:137 | `drop_duplicates` keeps the (`id`, `release_date`) pairs in frame order |
| TimeDim.TimeIdsIncreasing | airflow/dags/tmdb_dag.py:137-146 | `id_tempo` is strictly increasing in `Dim_Tempo`, hence unique |
| TimeDim.TimeRowParsed | airflow/dags/tmdb_dag.py:137-146 | each time row comes from a deduplicated pair at frame position `id_tempo - 1` whose date parsed to its date |
| TimeDim.TimeRowSource | airflow/dags/tmdb_dag.py:137-146 | frame position `id_tempo - 1` holds that film with a `release_date` |
| TimeDim.TimeDimensionSourced | airflow/dags/tmdb_dag.py:137-146 | every time row points back at its frame row |
| TimeDim.TempoMapLast | airflow/dags/tmdb_dag.py:157 | every film of `Dim_Tempo` is a key, bound to its last row's `id_tempo` |
| TimeDim.TempoMapRefers | airflow/dags/tmdb_dag.py:157 | every binding of `tempo_map` is a row of `Dim_Tempo` |
| TimeDim.TempoKeySource | airflow/dags/tmdb_dag.py:157 | a mapped `id_tempo` points at a frame row of that film with a `release_date` |
| TimeDim.LastIndexOf | airflow/dags/tmdb_dag.py:157 | the last occurrence of a key at or after a given one |
| TimeDim.BuildTempoMap | airflow/dags/tmdb_dag.py:157 | the loop builds exactly `tempo_map` |
| FactTable.FactAlignsWithMovies | airflow/dags/tmdb_dag.py:159-164 | `Fato_Filme` and `Dim_Filme` list the same films in the same order |
| FactTable.FactIdsDistinctComplete | airflow/dags/tmdb_dag.py:159-164 | one fact per film: no `id` twice and every `id` present |
| FactTable.FactTimeKey | airflow/dags/tmdb_dag.py:157-165 | `id_tempo` is present exactly when the film has a time row, and then it is the `id_tempo` of one of them |
| FactTable.FactTimeRow | airflow/dags/tmdb_dag.py:134-165 | a fact's `id_tempo` points at a frame row of that film with a `release_date` |
| ItemDim.SurrogateSpec | airflow/dags/tmdb_dag.py:183-185 | an item id is kept; a missing one becomes the label's hash id, present exactly for a non-blank label, below 2^64, and equal for labels that strip alike |
| ItemDim.ExplodedSurrogates | airflow/dags/tmdb_dag.py:180-185 | every exploded row gets a key below 2^64 |
| ItemDim.DimensionNonEmpty | airflow/dags/tmdb_dag.py:181-189 | exploded rows give a non-empty dimension |
| ItemDim.ItemDimensionExact | airflow/dags/tmdb_dag.py:186 | the dimension lists each (key, label) pair of the exploded rows exactly once |
| ItemDim.HashedNamesDistinct | airflow/dags/tmdb_dag.py:183-186 | for rows without an item id no label is listed twice |
| ItemDim.ItemNamesDistinct | airflow/dags/tmdb_dag.py:180-187 | the dimension built from an exploded column lists each label once |
| ItemDim.BridgeMember | airflow/dags/tmdb_dag.py:193 | a bridge row exists exactly for an exploded row whose film and key are both present |
| ItemDim.BridgeIntegrity | airflow/dags/tmdb_dag.py:180-193 | every bridge row's film is an `id` of the frame, and its key is in the dimension |
| ItemDim.BridgeComplete | airflow/dags/tmdb_dag.py:180-193 | every exploded row with a film id has its bridge row |
| Pipeline.TempoRecords | airflow/dags/tmdb_dag.py:149 | the written `Dim_Tempo` has one record per time row, carrying that row's `id_tempo`, date and calendar fields and dropping `id_filme` |
| Pipeline.WrittenTempo | airflow/dags/tmdb_dag.py:137-155 | in the written `Dim_Tempo`, `id_tempo` strictly increases and each record's year, month, quarter and decade are those of its date |
| Pipeline.ItemTablesSpec | airflow/dags/tmdb_dag.py:179-196 | a column's tables are built exactly when it explodes to some rows, and then the dimension is non-empty |
| Pipeline.HeadNames | airflow/dags/tmdb_dag.py:82-129 | the first writes are `Dim_Idioma` (when present) and `Dim_Filme`, last |
| Pipeline.TailNames | airflow/dags/tmdb_dag.py:159-316 | the later writes start with `Fato_Filme`, have distinct names, and never rewrite `Dim_Idioma`, `Dim_Filme` or `Dim_Tempo` |
| Pipeline.RunNamesDistinct | airflow/dags/tmdb_dag.py:82-316 | no table is written twice in one run |
| Pipeline.PersistedSnoc | airflow/scripts/extract_helpers.py:172-174 | a write reaches the database exactly when its table has rows |
| Pipeline.StoreSnoc | airflow/scripts/extract_helpers.py:172-174 | an empty write leaves the warehouse unchanged; any other replaces its table |
| Pipeline.StoreDistinct | airflow/dags/tmdb_dag.py:93-316 | with distinct names, each non-empty write is what its table ends up holding, and untouched tables stay as they were |
| Pipeline.RunStore | airflow/dags/tmdb_dag.py:82-316 | after the intended run each table written with rows holds what its step computed, and every other table is unchanged |
| Pipeline.MissingReleaseDateFails | airflow/dags/tmdb_dag.py:134-157 | without `release_date` the run as written fails at `tempo_map` after writing only `Dim_Idioma` and `Dim_Filme` |
| Pipeline.IntendedRunSpec | airflow/dags/tmdb_dag.py:134-174 | the intended run never fails; without `release_date` it skips `Dim_Tempo` and still writes `Fato_Filme`; otherwise it is the run as written |
| Pipeline.IntendedFactsNoTime | airflow/dags/tmdb_dag.py:157-165 | in the intended run without `release_date`, no fact has an `id_tempo` |
| Pipeline.Warehouse.WriteTableEngine | airflow/scripts/extract_helpers.py:164-174 | an empty table leaves the warehouse and the log unchanged; any other replaces its table and is logged |
| Pipeline.Warehouse.WriteItemTables | airflow/dags/tmdb_dag.py:179-196 | one column's dimension and bridge are written exactly as the run prescribes |
| Pipeline.Warehouse.TransformAndLoad | airflow/dags/tmdb_dag.py:65-316 | the task reports the run's error, the warehouse holds the run's writes applied in order, and the log holds exactly its non-empty writes, all as the source is written: without `release_date` only the head tables are replaced and the task stops at `tempo_map` |

## Left out

- Reading the bronze CSV, the MySQL engine, `to_sql` and the per-column dtype conversions of `write_table_engine` are I/O. The sink is modelled as a map from table name to contents, with `if_exists="replace"` semantics.
- The Airflow DAG wiring, the extract task and `save_bronze` only run other code. They are not modelled.
- The MD5 function, `json.loads`, `ast.literal_eval` and `pd.to_datetime` are foreign code and appear as parameters. The model states only how their results are used.
- `basic_clean`'s `release_date` and numeric steps are not modelled. They call `pd.to_datetime` and `pd.to_numeric`; measures stay opaque `real` values.
- Clean.BasicCleanFails: only the duplicated-`adult` failure is stated. Two columns that strip to `release_date`, or to one of the numeric names, make `pd.to_datetime` or `pd.to_numeric` receive a frame and raise (airflow/scripts/extract_helpers.py:93-104). Those steps are not modelled (see above), so neither is that failure.
- Text.LowerAscii: lower-cases ASCII letters only, whereas Python's `str.lower()` also maps non-ASCII capitals. Only ASCII spellings are compared (`true`, `nan`, and so on).
- `str(x)` of a non-text cell in `explode_json_column` and `name_to_int_id` is not modelled: cells are text or missing.
- A missing `id` column, or a missing measure column, raises `KeyError` in the source. The model assumes these columns are present; only the columns the source tests with `in df.columns` are optional.
- `Dim_Filme`'s column subsetting is not modelled: the descriptive columns travel as one record, each value possibly missing.
- Update in place of pandas frames (`rename(inplace=True)`, column assignment) is modelled as building new values.
- `id_filme` and the surrogate keys are unbounded integers. A hash id of 2^63 or more would overflow a signed BIGINT column at the database; that conversion is not modelled.
- The redundant `if col in df.columns` guards around `explode_json_column` are folded into `Explode.Exploded`, which returns `None` for a missing column.
- `tempo` keeps `id_filme` in the model (`TimeDim.TimeRow`). The table as written is its projection, `Pipeline.TempoRecords`.
- `id_tempo` is the frame position of the pair's row plus one, as in the source. It is unique and increasing but not consecutive; no contiguity is claimed.
- `id_filme` values that repeat with different release dates give several time rows. `tempo_map` keeps the last one (`TimeDim.TempoMapLast`), as `dict(zip(...))` does.

## Findings

| source | as written | input that shows it | evidently intended | confidence | as-written member | corrected member |
|---|---|---|---|---|---|---|
| airflow/dags/tmdb_dag.py:157 | `tempo_map = dict(zip(tempo["id_filme"], tempo["id_tempo"]))` sits outside the `if "release_date" in df.columns` block that assigns `tempo`, so without that column the task raises `NameError` after writing `Dim_Filme` and never writes `Fato_Filme` or the item tables | a bronze frame with no `release_date` column | skip `Dim_Tempo`, use an empty `tempo_map` (every `id_tempo` missing) and write the remaining tables | not executed | Pipeline.MissingReleaseDateFails | Pipeline.IntendedRunSpec |
