/**
 * The header and `adult` steps of `basic_clean(df)`: column names are
 * stripped, and the `adult` column becomes a boolean that is true exactly
 * when the cell's text, lower-cased but not stripped, is one of
 * `true`, `1`, `t`, `yes`, `y`.
 */
module Clean {
  import opened Wrappers
  import opened Text

  /** A cell of the raw frame: text, a missing value, or (after cleaning) a boolean. */
  datatype Cell = Str(s: string) | Missing | Flag(b: bool)

  /** A frame: header names, and rows of cells. */
  datatype Table = Table(header: seq<string>, rows: seq<seq<Cell>>)

  /** Every row has one cell per column. */
  predicate WellFormed(t: Table) {
    forall r :: 0 <= r < |t.rows| ==> |t.rows[r]| == |t.header|
  }

  /** Why `basic_clean` raises. */
  datatype CleanError =
    /** Two columns are named `adult` once stripped: `df['adult']` is then a frame, which has no `.str`. */
    | DuplicateAdultColumn

  /** `str(x)` of a cell, as `astype(str)` renders it. */
  function AsStr(c: Cell): string {
    match c
    case Str(s) => s
    case Missing => "nan"
    case Flag(b) => if b then "True" else "False"
  }

  /** The lower-cased spellings that count as true. */
  const TruthWords: set<string> := {"true", "1", "t", "yes", "y"}

  /** `str(x).lower() in ['true', '1', 't', 'yes', 'y']`. */
  function AdultFlag(c: Cell): bool {
    LowerAscii(AsStr(c)) in TruthWords
  }

  /** `[c.strip() for c in df.columns]`. */
  function StripHeaders(h: seq<string>): (r: seq<string>)
    ensures |r| == |h|
    ensures forall i :: 0 <= i < |h| ==> r[i] == Strip(h[i])
  {
    seq(|h|, i requires 0 <= i < |h| => Strip(h[i]))
  }

  /** Stripped headers have no white space at either end, and stripping them again changes nothing. */
  lemma StripHeadersClean(h: seq<string>)
    ensures forall i :: 0 <= i < |h| ==> IsStripped(StripHeaders(h)[i])
    ensures StripHeaders(StripHeaders(h)) == StripHeaders(h)
  {
    var r := StripHeaders(h);
    forall i | 0 <= i < |h|
      ensures StripHeaders(r)[i] == r[i]
    {
      StripIdempotent(h[i]);
    }
  }

  /** The positions of the columns named `name`, in column order. */
  function IndicesOf(h: seq<string>, name: string): (r: seq<nat>)
    ensures forall k :: 0 <= k < |r| ==> r[k] < |h| && h[r[k]] == name
    ensures forall i :: 0 <= i < |h| && h[i] == name ==> i in r
  {
    if h == [] then []
    else IndicesOf(h[..|h| - 1], name) + (if h[|h| - 1] == name then [|h| - 1] else [])
  }

  /** The row with the cell at `a` coerced to its `adult` flag. */
  function CoerceAt(row: seq<Cell>, a: nat): (r: seq<Cell>)
    requires a < |row|
  {
    row[a := Flag(AdultFlag(row[a]))]
  }

  /** `basic_clean(df)`, header and `adult` steps, on a copy of the frame. */
  function BasicClean(t: Table): Result<Table, CleanError>
    requires WellFormed(t)
  {
    var header := StripHeaders(t.header);
    var adults := IndicesOf(header, "adult");
    if |adults| > 1 then Failure(DuplicateAdultColumn)
    else if adults == [] then Success(Table(header, t.rows))
    else
      var a := adults[0];
      Success(Table(header, seq(|t.rows|, r requires 0 <= r < |t.rows| => CoerceAt(t.rows[r], a))))
  }

  /** The result is well formed, its header is the stripped header, and only the `adult` cells change. */
  lemma BasicCleanShape(t: Table)
    requires WellFormed(t)
    ensures BasicClean(t).Success? ==>
      var c := BasicClean(t).value;
      && WellFormed(c)
      && |c.header| == |t.header|
      && (forall i :: 0 <= i < |c.header| ==> c.header[i] == Strip(t.header[i]) && IsStripped(c.header[i]))
      && |c.rows| == |t.rows|
      && (forall r, i :: 0 <= r < |c.rows| && 0 <= i < |c.header| && c.header[i] != "adult" ==>
            c.rows[r][i] == t.rows[r][i])
      && (forall r, i :: 0 <= r < |c.rows| && 0 <= i < |c.header| && c.header[i] == "adult" ==>
            c.rows[r][i] == Flag(AdultFlag(t.rows[r][i])))
  {
    var header := StripHeaders(t.header);
    var adults := IndicesOf(header, "adult");
    if |adults| == 1 {
      var a := adults[0];
      forall i | 0 <= i < |header| && header[i] == "adult"
        ensures i == a
      {
        assert i in adults;
      }
    }
  }

  /** More than one position is found exactly when the name occurs twice. */
  lemma IndicesOfMany(h: seq<string>, name: string)
    ensures |IndicesOf(h, name)| > 1 <==> exists i, j :: 0 <= i < j < |h| && h[i] == name && h[j] == name
  {
    var r := IndicesOf(h, name);
    if |r| > 1 {
      IndicesOfDistinct(h, name);
      assert r[0] < r[1] && h[r[0]] == name && h[r[1]] == name;
    }
    if exists i, j :: 0 <= i < j < |h| && h[i] == name && h[j] == name {
      var i, j :| 0 <= i < j < |h| && h[i] == name && h[j] == name;
      assert i in r && j in r;
      var k1 :| 0 <= k1 < |r| && r[k1] == i;
      var k2 :| 0 <= k2 < |r| && r[k2] == j;
      assert k1 != k2;
    }
  }

  /** `basic_clean` raises exactly when two or more columns are named `adult` once stripped. */
  lemma BasicCleanFails(t: Table)
    requires WellFormed(t)
    ensures BasicClean(t).Failure? <==>
      exists i, j :: 0 <= i < j < |t.header| && Strip(t.header[i]) == "adult" && Strip(t.header[j]) == "adult"
  {
    var header := StripHeaders(t.header);
    IndicesOfMany(header, "adult");
    assert forall i :: 0 <= i < |t.header| ==> header[i] == Strip(t.header[i]);
  }

  /** The positions found are distinct. */
  lemma {:induction false} IndicesOfDistinct(h: seq<string>, name: string)
    ensures forall k1, k2 :: 0 <= k1 < k2 < |IndicesOf(h, name)| ==> IndicesOf(h, name)[k1] < IndicesOf(h, name)[k2]
  {
    if h != [] {
      IndicesOfDistinct(h[..|h| - 1], name);
    }
  }

  /** A coerced flag reads back as itself. */
  lemma AdultFlagOfFlag(b: bool)
    ensures AdultFlag(Flag(b)) == b
  {
    if b {
      assert LowerAscii("True") == "true";
    } else {
      assert LowerAscii("False") == "false";
    }
  }

  /** Cleaning a cleaned frame changes nothing. */
  lemma BasicCleanIdempotent(t: Table)
    requires WellFormed(t) && BasicClean(t).Success?
    ensures WellFormed(BasicClean(t).value)
    ensures BasicClean(BasicClean(t).value) == BasicClean(t)
  {
    BasicCleanShape(t);
    var c := BasicClean(t).value;
    var header := StripHeaders(t.header);
    forall i | 0 <= i < |header|
      ensures Strip(header[i]) == header[i]
    {
      StripIdempotent(t.header[i]);
    }
    assert StripHeaders(c.header) == c.header;
    var adults := IndicesOf(header, "adult");
    if |adults| == 1 {
      var a := adults[0];
      var rows2 := seq(|c.rows|, r requires 0 <= r < |c.rows| => CoerceAt(c.rows[r], a));
      forall r | 0 <= r < |c.rows|
        ensures rows2[r] == c.rows[r]
      {
        AdultFlagOfFlag(AdultFlag(t.rows[r][a]));
      }
      assert rows2 == c.rows;
    }
  }

  /** The comparison is not stripped: " yes" is false while "Yes" and "1" are true. */
  lemma AdultFlagExamples()
    ensures AdultFlag(Str("Yes")) && AdultFlag(Str("1"))
    ensures !AdultFlag(Str(" yes")) && !AdultFlag(Missing)
  {
    assert LowerAscii("Yes") == "yes";
    assert LowerAscii("1") == "1";
    assert LowerAscii(" yes") == " yes";
    assert LowerAscii("nan") == "nan";
  }
}
