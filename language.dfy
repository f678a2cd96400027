/**
 * `Dim_Idioma`: the distinct non-null `original_language` values, in the
 * order in which they first occur, numbered 1, 2, ...; and `lang_map`,
 * the dictionary from a language to its number.
 */
module LanguageDim {
  import opened Wrappers
  import opened Collections
  import opened Frames

  /** One row of `Dim_Idioma`. */
  datatype Language = Language(idIdioma: int, nomeIdioma: string)

  /** `df[["original_language"]].dropna()`: the present languages, in row order. */
  function Languages(rows: seq<Row>): (r: seq<string>)
    ensures |r| <= |rows|
  {
    if rows == [] then []
    else
      var last := rows[|rows| - 1].originalLanguage;
      Languages(rows[..|rows| - 1]) + (if last.Some? then [last.value] else [])
  }

  /** A language is listed exactly when some row has it. */
  lemma {:induction false} LanguagesMember(rows: seq<Row>, x: string)
    ensures x in Languages(rows) <==> exists i :: 0 <= i < |rows| && rows[i].originalLanguage == Some(x)
  {
    if rows != [] {
      var init := rows[..|rows| - 1];
      LanguagesMember(init, x);
      if exists i :: 0 <= i < |init| && init[i].originalLanguage == Some(x) {
        var i :| 0 <= i < |init| && init[i].originalLanguage == Some(x);
        assert rows[i] == init[i];
      }
      if exists i :: 0 <= i < |rows| && rows[i].originalLanguage == Some(x) {
        var i :| 0 <= i < |rows| && rows[i].originalLanguage == Some(x);
        if i < |init| {
          assert init[i] == rows[i];
        }
      }
    }
  }

  /** `.drop_duplicates()`: each language once, at its first occurrence. */
  function LanguageNames(rows: seq<Row>): seq<string> {
    DedupBy(Languages(rows), Self)
  }

  /** `langs["id_idioma"] = langs.index + 1` after `reset_index(drop=True)`. */
  function LanguageDimension(rows: seq<Row>): (d: seq<Language>)
    ensures |d| == |LanguageNames(rows)|
  {
    var names := LanguageNames(rows);
    seq(|names|, i requires 0 <= i < |names| => Language(i + 1, names[i]))
  }

  /** The `nome_idioma` column. */
  function NameColumn(d: seq<Language>): (r: seq<string>)
    ensures |r| == |d| && forall i :: 0 <= i < |d| ==> r[i] == d[i].nomeIdioma
  {
    seq(|d|, i requires 0 <= i < |d| => d[i].nomeIdioma)
  }

  /** The `id_idioma` column. */
  function IdColumn(d: seq<Language>): (r: seq<int>)
    ensures |r| == |d| && forall i :: 0 <= i < |d| ==> r[i] == d[i].idIdioma
  {
    seq(|d|, i requires 0 <= i < |d| => d[i].idIdioma)
  }

  /** `dict(zip(langs["nome_idioma"], langs["id_idioma"]))`. */
  function LanguageMap(d: seq<Language>): map<string, int> {
    ZipMap(NameColumn(d), IdColumn(d))
  }

  /** Row `i` of the dimension is the `i`-th distinct language, numbered `i + 1`: the numbers run 1..n with no gap. */
  lemma LanguageIds(rows: seq<Row>)
    ensures forall i :: 0 <= i < |LanguageDimension(rows)| ==>
      LanguageDimension(rows)[i] == Language(i + 1, LanguageNames(rows)[i])
  {
  }

  /** No language is listed twice. */
  lemma LanguageNamesDistinct(rows: seq<Row>)
    ensures forall i, j :: 0 <= i < j < |LanguageDimension(rows)| ==>
      LanguageDimension(rows)[i].nomeIdioma != LanguageDimension(rows)[j].nomeIdioma
  {
    var d := LanguageDimension(rows);
    var names := LanguageNames(rows);
    LanguageIds(rows);
    forall i, j | 0 <= i < j < |d|
      ensures d[i].nomeIdioma != d[j].nomeIdioma
    {
      assert Self(names[i]) != Self(names[j]);
    }
  }

  /** A language is listed exactly when some row has it. */
  lemma LanguageNamesComplete(rows: seq<Row>, x: string)
    ensures x in LanguageNames(rows) <==> exists r :: 0 <= r < |rows| && rows[r].originalLanguage == Some(x)
  {
    var names := LanguageNames(rows);
    var langs := Languages(rows);
    LanguagesMember(rows, x);
    if x in names {
      var i :| 0 <= i < |names| && names[i] == x;
      assert names[i] in langs;
    }
    if x in langs {
      assert Self(x) in KeysOf(langs, Self);
      assert Self(x) in KeysOf(names, Self);
      KeysOfWitness(names, Self, x);
      var i :| 0 <= i < |names| && Self(names[i]) == x;
    }
  }

  /** The languages are listed in the order in which they first occur. */
  lemma LanguageNamesOrder(rows: seq<Row>)
    ensures forall i, j :: 0 <= i < j < |LanguageNames(rows)| ==>
      FirstKeyIndex(Languages(rows), Self, LanguageNames(rows)[i])
        < FirstKeyIndex(Languages(rows), Self, LanguageNames(rows)[j])
  {
    DedupByFirstSeenOrder(Languages(rows), Self);
    assert forall i :: 0 <= i < |LanguageNames(rows)| ==> Self(LanguageNames(rows)[i]) == LanguageNames(rows)[i];
  }

  /** With distinct names, the zipped map sends each name to its own row's number. */
  lemma DistinctNamesMap(d: seq<Language>)
    requires forall i, j :: 0 <= i < j < |d| ==> d[i].nomeIdioma != d[j].nomeIdioma
    ensures forall i :: 0 <= i < |d| ==> d[i].nomeIdioma in LanguageMap(d) && LanguageMap(d)[d[i].nomeIdioma] == d[i].idIdioma
  {
    var ks := NameColumn(d);
    var vs := IdColumn(d);
    assert DistinctKeys(ks, Self) by {
      forall i, j | 0 <= i < j < |ks|
        ensures Self(ks[i]) != Self(ks[j])
      {
        assert ks[i] == d[i].nomeIdioma && ks[j] == d[j].nomeIdioma;
      }
    }
    ZipMapDistinct(ks, vs);
  }

  /** For rows numbered 1..n with distinct names, the zipped map is the exact inverse of the numbering. */
  lemma NumberedMapInverse(d: seq<Language>)
    requires forall i :: 0 <= i < |d| ==> d[i].idIdioma == i + 1
    requires forall i, j :: 0 <= i < j < |d| ==> d[i].nomeIdioma != d[j].nomeIdioma
    ensures forall i :: 0 <= i < |d| ==> d[i].nomeIdioma in LanguageMap(d) && LanguageMap(d)[d[i].nomeIdioma] == d[i].idIdioma
    ensures forall x :: x in LanguageMap(d) ==> 1 <= LanguageMap(d)[x] <= |d| && d[LanguageMap(d)[x] - 1].nomeIdioma == x
  {
    DistinctNamesMap(d);
    forall x | x in LanguageMap(d)
      ensures 1 <= LanguageMap(d)[x] <= |d| && d[LanguageMap(d)[x] - 1].nomeIdioma == x
    {
      var ks := NameColumn(d);
      assert x in LanguageMap(d).Keys;
      var i :| 0 <= i < |ks| && ks[i] == x;
      assert d[i].nomeIdioma == x;
    }
  }

  /**
   * `lang_map` is the exact inverse of `Dim_Idioma`: every listed language
   * maps to its own number, and every mapped language sits at that number.
   */
  lemma LanguageMapInverse(rows: seq<Row>)
    ensures var d := LanguageDimension(rows);
      && (forall i :: 0 <= i < |d| ==> d[i].idIdioma == i + 1)
      && (forall i :: 0 <= i < |d| ==> d[i].nomeIdioma in LanguageMap(d) && LanguageMap(d)[d[i].nomeIdioma] == d[i].idIdioma)
      && (forall x :: x in LanguageMap(d) ==> 1 <= LanguageMap(d)[x] <= |d| && d[LanguageMap(d)[x] - 1].nomeIdioma == x)
  {
    LanguageIds(rows);
    LanguageNamesDistinct(rows);
    NumberedMapInverse(LanguageDimension(rows));
  }

  /** Builds `lang_map` pair by pair. */
  method BuildLanguageMap(d: seq<Language>) returns (langMap: map<string, int>)
    ensures langMap == LanguageMap(d)
  {
    langMap := DictZip(NameColumn(d), IdColumn(d));
  }
}
