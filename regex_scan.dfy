/**
 * The two regular expressions of the fragment tier, written out as scans:
 * `re.finditer(r"\{[^}]*\}", s)` and `re.search` of the loose
 * `key\s*:\s*('?"?)(?P<v>[^...]+)` patterns for `id` and `name`,
 * with Python's leftmost, greedy, backtracking semantics.
 */
module RegexScan {
  import opened Wrappers
  import opened Text

  /** First index `k >= j` with `s[k] == c`. */
  function FindFrom(s: string, j: nat, c: char): (k: Option<nat>)
    ensures k.Some? ==> j <= k.value < |s| && s[k.value] == c
    ensures k.Some? ==> forall m :: j <= m < k.value ==> s[m] != c
    ensures k.None? ==> forall m :: j <= m < |s| ==> s[m] != c
    decreases |s| - j
  {
    if j >= |s| then None
    else if s[j] == c then Some(j)
    else FindFrom(s, j + 1, c)
  }

  /** A match of `\{[^}]*\}`: opens with `{`, closes with the first `}` after it. */
  predicate IsBraceMatch(s: string, start: nat, end: nat) {
    start + 2 <= end <= |s| && s[start] == '{' && s[end - 1] == '}'
    && forall k :: start < k < end - 1 ==> s[k] != '}'
  }

  /** End (exclusive) of the match of `\{[^}]*\}` that starts at `i`, if there is one. */
  function BraceMatchAt(s: string, i: nat): (e: Option<nat>)
    ensures e.Some? ==> IsBraceMatch(s, i, e.value)
    ensures e.None? ==> i >= |s| || s[i] != '{' || forall k :: i < k < |s| ==> s[k] != '}'
  {
    if i < |s| && s[i] == '{' then
      match FindFrom(s, i + 1, '}')
      case Some(k) => Some(k + 1)
      case None => None
    else None
  }

  /** Start and end (exclusive) of one match. */
  datatype Span = Span(start: nat, end: nat)

  /**
   * The spans `finditer` reports when it starts looking at `i`: matches in
   * left-to-right order, none overlapping the next.
   */
  function BraceSpansFrom(s: string, i: nat): (r: seq<Span>)
    ensures forall k :: 0 <= k < |r| ==> i <= r[k].start && IsBraceMatch(s, r[k].start, r[k].end)
    ensures forall k :: 0 <= k < |r| - 1 ==> r[k].end <= r[k + 1].start
    decreases |s| - i
  {
    if i >= |s| then []
    else
      match BraceMatchAt(s, i)
      case Some(e) => [Span(i, e)] + BraceSpansFrom(s, e)
      case None => BraceSpansFrom(s, i + 1)
  }

  /**
   * `finditer` misses no match: every position at or after `i` where a
   * match starts lies inside a reported span, its own or an earlier one
   * that overlaps it.
   */
  lemma {:induction false} BraceSpansComplete(s: string, i: nat, p: nat)
    requires i <= p && BraceMatchAt(s, p).Some?
    ensures exists k :: 0 <= k < |BraceSpansFrom(s, i)| && BraceSpansFrom(s, i)[k].start <= p < BraceSpansFrom(s, i)[k].end
    decreases |s| - i
  {
    var r := BraceSpansFrom(s, i);
    match BraceMatchAt(s, i)
    case Some(e) =>
      if p < e {
        assert r[0] == Span(i, e);
      } else {
        BraceSpansComplete(s, e, p);
        var k :| 0 <= k < |BraceSpansFrom(s, e)| && BraceSpansFrom(s, e)[k].start <= p < BraceSpansFrom(s, e)[k].end;
        assert r[k + 1] == BraceSpansFrom(s, e)[k];
      }
    case None =>
      BraceSpansComplete(s, i + 1, p);
  }

  /** `[m.group(0) for m in re.finditer(r"\{[^}]*\}", s)]`. */
  function BraceMatches(s: string): (ms: seq<string>)
    ensures forall k :: 0 <= k < |ms| ==> |ms[k]| >= 2 && ms[k][0] == '{' && ms[k][|ms[k]| - 1] == '}'
    ensures forall k, m :: 0 <= k < |ms| && 0 < m < |ms[k]| - 1 ==> ms[k][m] != '}'
  {
    var spans := BraceSpansFrom(s, 0);
    seq(|spans|, k requires 0 <= k < |spans| => s[spans[k].start..spans[k].end])
  }

  /** A text with no `{` has no brace match. */
  lemma {:induction false} NoOpenBraceNoMatch(s: string, i: nat)
    requires forall k :: 0 <= k < |s| ==> s[k] != '{'
    ensures BraceSpansFrom(s, i) == []
    decreases |s| - i
  {
    if i < |s| {
      NoOpenBraceNoMatch(s, i + 1);
    }
  }

  /** The characters the `id` value may not contain: `[^'",}\]]`. */
  const IdStop: set<char> := {'\'', '"', ',', '}', ']'}

  /** The characters the `name` value may not contain: `[^'",}]`. */
  const NameStop: set<char> := {'\'', '"', ',', '}'}

  /** End of the run of white space that starts at `j` (what a greedy `\s*` consumes). */
  function SkipSpace(s: string, j: nat): (k: nat)
    requires j <= |s|
    ensures j <= k <= |s|
    ensures forall m :: j <= m < k ==> IsSpace(s[m])
    ensures k == |s| || !IsSpace(s[k])
    decreases |s| - j
  {
    if j < |s| && IsSpace(s[j]) then SkipSpace(s, j + 1) else j
  }

  /** End of the run of characters outside `stop` that starts at `j` (a greedy `[^stop]+`). */
  function RunEnd(s: string, j: nat, stop: set<char>): (k: nat)
    requires j <= |s|
    ensures j <= k <= |s|
    ensures forall m :: j <= m < k ==> s[m] !in stop
    ensures k == |s| || s[k] in stop
    decreases |s| - j
  {
    if j < |s| && s[j] !in stop then RunEnd(s, j + 1, stop) else j
  }

  /**
   * The captured value when `key\s*:\s*('?"?)([^stop]+)` matches at `p`.
   * After the second `\s*`, an optional `'` and then an optional `"` are
   * taken greedily and the value runs as far as it can. If no value
   * character follows, backtracking hands the last character of the
   * second `\s*` back to the value class, which then captures just that
   * white-space character; with no such character the match fails.
   */
  function LooseMatchAt(s: string, p: nat, key: string, stop: set<char>): (v: Option<string>)
    requires stop == IdStop || stop == NameStop
    ensures v.Some? ==> v.value != [] && forall m :: 0 <= m < |v.value| ==> v.value[m] !in stop
  {
    if !(p + |key| <= |s| && s[p..p + |key|] == key) then None
    else
      var q1 := SkipSpace(s, p + |key|);
      if q1 >= |s| || s[q1] != ':' then None
      else
        var q2 := q1 + 1;
        var q3 := SkipSpace(s, q2);
        var a1 := if q3 < |s| && s[q3] == '\'' then q3 + 1 else q3;
        var a := if a1 < |s| && s[a1] == '"' then a1 + 1 else a1;
        if a < |s| && s[a] !in stop then Some(Capture(s, a, stop))
        else if q3 > q2 then
          assert IsSpace(s[q3 - 1]);
          Some(Capture(s, q3 - 1, stop))
        else None
  }

  /** The value a greedy `[^stop]+` captures from `a`: non-empty and free of `stop`. */
  function Capture(s: string, a: nat, stop: set<char>): (v: string)
    requires a < |s| && s[a] !in stop
    ensures v != [] && forall m :: 0 <= m < |v| ==> v[m] !in stop
  {
    s[a..RunEnd(s, a, stop)]
  }

  /** A run of characters outside `stop` from `j` that ends at a `stop` character at `k`. */
  lemma {:induction false} RunEndAt(s: string, j: nat, k: nat, stop: set<char>)
    requires j <= k < |s| && s[k] in stop
    requires forall m :: j <= m < k ==> s[m] !in stop
    ensures RunEnd(s, j, stop) == k
    decreases k - j
  {
    if j < k {
      RunEndAt(s, j + 1, k, stop);
    }
  }

  /** The pattern cannot match where the key's first character is missing. */
  lemma NoMatchAt(s: string, p: nat, key: string, stop: set<char>)
    requires stop == IdStop || stop == NameStop
    requires key != [] && (p + |key| > |s| || s[p] != key[0])
    ensures LooseMatchAt(s, p, key, stop).None?
  {
    if p + |key| <= |s| {
      assert s[p..p + |key|][0] == s[p];
    }
  }

  /**
   * `key: v...` with one space after the colon captures the run of
   * characters outside `stop` that starts at the value.
   */
  lemma MatchAfterColon(s: string, p: nat, key: string, stop: set<char>)
    requires stop == IdStop || stop == NameStop
    requires p + |key| + 2 < |s| && s[p..p + |key|] == key
    requires s[p + |key|] == ':' && s[p + |key| + 1] == ' '
    requires !IsSpace(s[p + |key| + 2]) && s[p + |key| + 2] !in {'\'', '"'} && s[p + |key| + 2] !in stop
    ensures LooseMatchAt(s, p, key, stop) == Some(Capture(s, p + |key| + 2, stop))
  {
    var q := p + |key|;
    assert SkipSpace(s, q) == q;
    assert SkipSpace(s, q + 1) == SkipSpace(s, q + 2);
    assert SkipSpace(s, q + 2) == q + 2;
  }

  /** `re.search`: the first position, from `p` on, at which the pattern matches. */
  function LooseSearchFrom(s: string, p: nat, key: string, stop: set<char>): (v: Option<string>)
    requires stop == IdStop || stop == NameStop
    ensures v.Some? ==> v.value != [] && forall m :: 0 <= m < |v.value| ==> v.value[m] !in stop
    decreases |s| + 1 - p
  {
    if p > |s| then None
    else
      match LooseMatchAt(s, p, key, stop)
      case Some(v) => Some(v)
      case None => LooseSearchFrom(s, p + 1, key, stop)
  }

  /** `re.search(r"id\s*:\s*('?\"?)(?P<id>[^'\",}\]]+)", txt)`, the `id` group. */
  function LooseId(txt: string): (v: Option<string>)
    ensures v.Some? ==> v.value != [] && forall m :: 0 <= m < |v.value| ==> v.value[m] !in IdStop
  {
    LooseSearchFrom(txt, 0, "id", IdStop)
  }

  /** `re.search(r"name\s*:\s*('?\"?)(?P<name>[^'\",}]+)", txt)`, the `name` group. */
  function LooseName(txt: string): (v: Option<string>)
    ensures v.Some? ==> v.value != [] && forall m :: 0 <= m < |v.value| ==> v.value[m] !in NameStop
  {
    LooseSearchFrom(txt, 0, "name", NameStop)
  }

  /** In "{id: 28, name: Action}" the first `}` after the opening brace is the last character. */
  lemma SampleCloseBrace()
    ensures FindFrom("{id: 28, name: Action}", 1, '}') == Some(21)
  {
    var s := "{id: 28, name: Action}";
    assert s[21] == '}';
    assert forall m :: 1 <= m < 21 ==> s[m] != '}';
  }

  /** `finditer` over "{id: 28, name: Action}" yields the whole text as its one match. */
  lemma SampleBraceMatches()
    ensures BraceMatches("{id: 28, name: Action}") == ["{id: 28, name: Action}"]
  {
    var s := "{id: 28, name: Action}";
    SampleCloseBrace();
    assert BraceMatchAt(s, 0) == Some(22);
    assert BraceSpansFrom(s, 22) == [];
    assert BraceSpansFrom(s, 0) == [Span(0, 22)];
    assert s[0..22] == s;
  }

  /** The `id` pattern does not match at the opening brace... */
  lemma SampleIdNotAtBrace()
    ensures LooseMatchAt("{id: 28, name: Action}", 0, "id", IdStop).None?
  {
    NoMatchAt("{id: 28, name: Action}", 0, "id", IdStop);
  }

  /** ...and matches at the key, capturing "28" up to the comma. */
  lemma SampleIdAtKey()
    ensures LooseMatchAt("{id: 28, name: Action}", 1, "id", IdStop) == Some("28")
  {
    var s := "{id: 28, name: Action}";
    assert s[1..3] == "id";
    MatchAfterColon(s, 1, "id", IdStop);
    assert s[5] !in IdStop && s[6] !in IdStop && s[7] in IdStop;
    assert RunEnd(s, 5, IdStop) == RunEnd(s, 6, IdStop) == 7;
    assert Capture(s, 5, IdStop) == s[5..7] == "28";
  }

  /** The loose `id` search on "{id: 28, name: Action}" captures the text "28". */
  lemma SampleLooseId()
    ensures LooseId("{id: 28, name: Action}") == Some("28")
  {
    SampleIdNotAtBrace();
    SampleIdAtKey();
  }

  /** The `name` pattern matches nowhere before the key... */
  lemma SampleNameNotBeforeKey()
    ensures forall q :: 0 <= q < 9 ==> LooseMatchAt("{id: 28, name: Action}", q, "name", NameStop).None?
  {
    var s := "{id: 28, name: Action}";
    forall q | 0 <= q < 9
      ensures LooseMatchAt(s, q, "name", NameStop).None?
    {
      NoMatchAt(s, q, "name", NameStop);
    }
  }

  /** ...and matches at the key, capturing "Action" up to the closing brace. */
  lemma SampleNameAtKey()
    ensures LooseMatchAt("{id: 28, name: Action}", 9, "name", NameStop) == Some("Action")
  {
    var s := "{id: 28, name: Action}";
    assert s[9..13] == "name";
    MatchAfterColon(s, 9, "name", NameStop);
    assert forall m :: 15 <= m < 21 ==> s[m] !in NameStop;
    assert s[21] in NameStop;
    RunEndAt(s, 15, 21, NameStop);
    assert Capture(s, 15, NameStop) == s[15..21] == "Action";
  }

  /** The loose `name` search on "{id: 28, name: Action}" captures the text "Action". */
  lemma SampleLooseName()
    ensures LooseName("{id: 28, name: Action}") == Some("Action")
  {
    SampleNameNotBeforeKey();
    SampleNameAtKey();
    var s := "{id: 28, name: Action}";
    assert LooseSearchFrom(s, 9, "name", NameStop) == Some("Action");
  }
}
