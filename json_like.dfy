/**
 * `_try_parse_json_like`: the best-effort parser of list-of-object cells.
 * Strategies are tried in a fixed order; each one only runs when every
 * earlier one has failed:
 *   1. non-text values are handled by their type;
 *   2. blank text and the empty tokens give `None`;
 *   3. `json.loads`, `json.loads` after turning `'` into `"`, `ast.literal_eval`;
 *   4. the `{...}` fragments, literal-parsed or matched loosely for `id`/`name`;
 *   5. a plain comma-separated list.
 * `json.loads` and `ast.literal_eval` are parameters (`Parsers`): `None`
 * stands for "raised an exception".
 */
module JsonLike {
  import opened Wrappers
  import opened Text
  import opened RegexScan
  import opened Collections

  /** The Python values the parser receives and returns. */
  datatype PyValue =
    | PyNone
    | PyBool(b: bool)
    | PyInt(i: int)
    | PyFloat
    | PyStr(s: string)
    | PyList(items: seq<PyValue>)
    | PyTuple(items: seq<PyValue>)
    | PyDict(entries: seq<(PyValue, PyValue)>)
    | PyOther

  /** `json.loads` and `ast.literal_eval`; `None` when the call raises. */
  datatype Parsers = Parsers(jsonLoads: string -> Option<PyValue>, literalEval: string -> Option<PyValue>)

  /** The ladder's verdict: which strategy produced the answer. */
  datatype Outcome =
    | NoItems                               // the function returns None
    | Container(items: seq<PyValue>)        // a list, tuple or dict passed in
    | Structured(value: PyValue)            // a whole-text parser succeeded
    | FragmentRecovered(dicts: seq<PyValue>)
    | PlainList(labels: seq<string>)

  /** Tokens that stand for "no value": blank, `nan`/`none`/`null` in any case, `[]`, `[ ]`. */
  predicate IsEmptyToken(s: string) {
    s == "" || LowerAscii(s) in {"nan", "none", "null"} || s in {"[]", "[ ]"}
  }

  /** `x.replace("'", '"')`. */
  function QuoteSwapped(s: string): (r: string)
    ensures |r| == |s| && '\'' !in r
  {
    ReplaceChar(s, '\'', '"')
  }

  /** Parser number `k` of the source's `for parser_func in (...)` loop, applied to `s`. */
  function Attempt(p: Parsers, k: nat, s: string): Option<PyValue>
    requires k < 3
  {
    if k == 0 then p.jsonLoads(s)
    else if k == 1 then p.jsonLoads(QuoteSwapped(s))
    else p.literalEval(s)
  }

  /** The three whole-text parsers, in the order the source tries them. */
  function StructuredTier(p: Parsers, s: string): Option<PyValue> {
    if p.jsonLoads(s).Some? then p.jsonLoads(s)
    else if p.jsonLoads(QuoteSwapped(s)).Some? then p.jsonLoads(QuoteSwapped(s))
    else p.literalEval(s)
  }

  /** No quote, comma or closing brace in `s`. */
  predicate IsLooseText(s: string) {
    forall m :: 0 <= m < |s| ==> s[m] !in {'\'', '"', ',', '}'}
  }

  /** `m.group('v').strip("'\"")` wrapped as the value of the loose dict; `None` when absent. */
  function LooseValue(v: Option<string>): (r: PyValue)
    requires v.Some? ==> IsLooseText(v.value)
    ensures r == (if v.Some? then PyStr(v.value) else PyNone)
  {
    match v
    case Some(x) =>
      StripCharsNoop(x, {'\'', '"'});
      PyStr(StripChars(x, {'\'', '"'}))
    case None => PyNone
  }

  /**
   * The dict built from the loose `id`/`name` matches of one fragment, if
   * either matched. Its values are strings (ids are not converted to
   * integers) free of quotes, commas and closing braces, or `None`.
   */
  function LooseItem(txt: string): (r: Option<PyValue>)
    ensures r.Some? <==> LooseId(txt).Some? || LooseName(txt).Some?
    ensures r.Some? ==> (
      && r.value.PyDict? && |r.value.entries| == 2
      && r.value.entries[0].0 == PyStr("id") && r.value.entries[1].0 == PyStr("name")
      && forall e :: e in r.value.entries ==> e.1 == PyNone || (e.1.PyStr? && e.1.s != [] && IsLooseText(e.1.s)))
    ensures r.Some? ==> r.value.entries[0].1 == LooseValue(LooseId(txt)) && r.value.entries[1].1 == LooseValue(LooseName(txt))
  {
    var idm := LooseId(txt);
    var namem := LooseName(txt);
    if idm.None? && namem.None? then None
    else
      Some(PyDict([(PyStr("id"), LooseValue(idm)), (PyStr("name"), LooseValue(namem))]))
  }

  /**
   * What one `{...}` fragment contributes: the dict `ast.literal_eval` makes
   * of it, else the loose dict; nothing when neither applies.
   */
  function FragmentItem(p: Parsers, txt: string): (r: Option<PyValue>)
    ensures r.Some? <==> (p.literalEval(txt).Some? && p.literalEval(txt).value.PyDict?) || LooseItem(txt).Some?
    ensures r.Some? ==> r.value.PyDict?
    ensures (p.literalEval(txt).Some? && p.literalEval(txt).value.PyDict?) ==> r == p.literalEval(txt)
  {
    match p.literalEval(txt)
    case Some(PyDict(entries)) => Some(PyDict(entries))
    case _ => LooseItem(txt)
  }

  /** What the fragment loop appends for one fragment: its dict, if any. */
  function Contribution(p: Parsers, m: string): (r: seq<PyValue>)
    ensures |r| <= 1
  {
    match FragmentItem(p, m)
    case Some(d) => [d]
    case None => []
  }

  /** The per-fragment step of the loop, as a function value. */
  function Contributions(p: Parsers): string -> seq<PyValue> {
    (m: string) => Contribution(p, m)
  }

  /** The items the fragment loop appends, one at most per fragment, in fragment order. */
  function FragmentItems(p: Parsers, ms: seq<string>): seq<PyValue> {
    FlatMap(ms, Contributions(p))
  }

  /** The comma fallback: only for text with a comma and no `[`/`{` start and no colon. */
  function CommaTier(s: string): (r: Option<seq<string>>)
    ensures r.Some? ==> ',' in s && !StartsWith(s, "[") && !StartsWith(s, "{") && ':' !in s
    ensures r.Some? ==> r.value == Segments(s) && r.value != []
    ensures ',' in s && !StartsWith(s, "[") && !StartsWith(s, "{") && ':' !in s && Segments(s) != [] ==> r == Some(Segments(s))
  {
    if ',' in s && !(StartsWith(s, "[") || StartsWith(s, "{") || ':' in s) then
      var parts := Segments(s);
      if parts == [] then None else Some(parts)
    else None
  }

  /** The tiers after the whole-text parsers: fragments first, then the comma list. */
  function Fallback(p: Parsers, s: string): Outcome {
    var dicts := FragmentItems(p, BraceMatches(s));
    if dicts != [] then FragmentRecovered(dicts)
    else
      match CommaTier(s)
      case Some(parts) => PlainList(parts)
      case None => NoItems
  }

  /** The ladder on stripped text. */
  function ClassifyText(p: Parsers, s: string): Outcome {
    if IsEmptyToken(s) then NoItems
    else
      match StructuredTier(p, s)
      case Some(v) => Structured(v)
      case None => Fallback(p, s)
  }

  /** The ladder on any value. */
  function Classify(p: Parsers, raw: PyValue): Outcome {
    match raw
    case PyList(xs) => Container(xs)
    case PyTuple(xs) => Container(xs)
    case PyDict(_) => Container([raw])
    case PyStr(t) => ClassifyText(p, Strip(t))
    case _ => NoItems
  }

  function PyStrs(labels: seq<string>): (r: seq<PyValue>)
    ensures |r| == |labels| && forall k :: 0 <= k < |r| ==> r[k] == PyStr(labels[k])
  {
    seq(|labels|, k requires 0 <= k < |labels| => PyStr(labels[k]))
  }

  /** The Python value the function returns for a verdict. */
  function ToPython(o: Outcome): PyValue {
    match o
    case NoItems => PyNone
    case Container(xs) => PyList(xs)
    case Structured(v) => v
    case FragmentRecovered(dicts) => PyList(dicts)
    case PlainList(labels) => PyList(PyStrs(labels))
  }

  /** `_try_parse_json_like(raw)`, the value-level specification. */
  function ParseJsonLike(p: Parsers, raw: PyValue): PyValue {
    ToPython(Classify(p, raw))
  }

  /** The regex loop over `{...}` fragments, appending to `items`. */
  method RecoverFragments(p: Parsers, s: string) returns (items: seq<PyValue>)
    ensures items == FragmentItems(p, BraceMatches(s))
  {
    var ms := BraceMatches(s);
    items := [];
    var i := 0;
    while i < |ms|
      invariant 0 <= i <= |ms|
      invariant items == FragmentItems(p, ms[..i])
    {
      FlatMapPrefixStep(ms, i, Contributions(p));
      assert Contributions(p)(ms[i]) == Contribution(p, ms[i]);
      var item := FragmentItem(p, ms[i]);
      if item.Some? {
        items := items + [item.value];
      }
      i := i + 1;
    }
    assert ms[..i] == ms;
  }

  /** The first parser that succeeds decides the result. */
  lemma FirstAttemptWins(p: Parsers, s: string, k: nat)
    requires !IsEmptyToken(s) && k < 3
    requires forall j :: 0 <= j < k ==> Attempt(p, j, s).None?
    requires Attempt(p, k, s).Some?
    ensures ToPython(ClassifyText(p, s)) == Attempt(p, k, s).value
  {
    if k == 1 {
      assert Attempt(p, 0, s).None?;
    } else if k == 2 {
      assert Attempt(p, 0, s).None? && Attempt(p, 1, s).None?;
    }
    assert StructuredTier(p, s) == Attempt(p, k, s);
  }

  /** When every parser fails, the fragment and comma tiers decide. */
  lemma AllAttemptsFail(p: Parsers, s: string)
    requires !IsEmptyToken(s)
    requires forall j :: 0 <= j < 3 ==> Attempt(p, j, s).None?
    ensures ClassifyText(p, s) == Fallback(p, s)
  {
    assert Attempt(p, 0, s).None? && Attempt(p, 1, s).None? && Attempt(p, 2, s).None?;
    assert StructuredTier(p, s).None?;
  }

  /** The text branch of `_try_parse_json_like`, on the stripped text `s`. */
  method ParseText(p: Parsers, s: string) returns (r: PyValue)
    ensures r == ToPython(ClassifyText(p, s))
  {
    if IsEmptyToken(s) {
      return PyNone;
    }
    var k := 0;
    while k < 3
      invariant 0 <= k <= 3
      invariant forall j :: 0 <= j < k ==> Attempt(p, j, s).None?
    {
      var attempt := Attempt(p, k, s);
      if attempt.Some? {
        FirstAttemptWins(p, s, k);
        return attempt.value;
      }
      k := k + 1;
    }
    AllAttemptsFail(p, s);
    r := FallbackValue(p, s);
  }

  /** The tail of the text branch once every parser has failed: fragments, then the comma list. */
  method FallbackValue(p: Parsers, s: string) returns (r: PyValue)
    ensures r == ToPython(Fallback(p, s))
  {
    var items := RecoverFragments(p, s);
    if items != [] {
      return PyList(items);
    }
    if ',' in s && !(StartsWith(s, "[") || StartsWith(s, "{") || ':' in s) {
      var parts := Segments(s);
      if parts != [] {
        return PyList(PyStrs(parts));
      }
    }
    return PyNone;
  }

  /** `_try_parse_json_like(raw)` as the source runs it: a type dispatch, then the text ladder. */
  method TryParseJsonLike(p: Parsers, raw: PyValue) returns (r: PyValue)
    ensures r == ParseJsonLike(p, raw)
  {
    match raw {
      case PyList(xs) => r := PyList(xs);
      case PyTuple(xs) => r := PyList(xs);
      case PyDict(_) => r := PyList([raw]);
      case PyStr(t) => r := ParseText(p, Strip(t));
      case _ => r := PyNone;
    }
  }

  // ---------------------------------------------------------------------
  // Properties of the ladder
  // ---------------------------------------------------------------------

  /** Blank text, `nan`/`none`/`null` in any case, and `[]` or `[ ]` give `None`. */
  lemma EmptyTokensGiveNone(p: Parsers, t: string)
    requires IsBlank(t) || LowerAscii(Strip(t)) in {"nan", "none", "null"} || Strip(t) in {"[]", "[ ]"}
    ensures ParseJsonLike(p, PyStr(t)) == PyNone
  {
    StripEmptyIffBlank(t);
  }

  /** Non-text input: lists and tuples come back as lists, a dict as a one-element list, the rest as `None`. */
  lemma NonTextInputs(p: Parsers, raw: PyValue)
    requires !raw.PyStr?
    ensures raw.PyList? || raw.PyTuple? ==> ParseJsonLike(p, raw) == PyList(raw.items)
    ensures raw.PyDict? ==> ParseJsonLike(p, raw) == PyList([raw])
    ensures raw.PyNone? || raw.PyFloat? || raw.PyInt? || raw.PyBool? || raw.PyOther? ==> ParseJsonLike(p, raw) == PyNone
  {
  }

  /**
   * The parsers run in a fixed order and the first success is returned
   * unchanged; the fragment and comma tiers are reached only when all three fail.
   */
  lemma StrategyOrder(p: Parsers, t: string)
    requires !IsEmptyToken(Strip(t))
    ensures var s := Strip(t);
      && (p.jsonLoads(s).Some? ==> ParseJsonLike(p, PyStr(t)) == p.jsonLoads(s).value)
      && (p.jsonLoads(s).None? && p.jsonLoads(QuoteSwapped(s)).Some? ==>
            ParseJsonLike(p, PyStr(t)) == p.jsonLoads(QuoteSwapped(s)).value)
      && (p.jsonLoads(s).None? && p.jsonLoads(QuoteSwapped(s)).None? && p.literalEval(s).Some? ==>
            ParseJsonLike(p, PyStr(t)) == p.literalEval(s).value)
      && (Classify(p, PyStr(t)).FragmentRecovered? || Classify(p, PyStr(t)).PlainList? ==>
            p.jsonLoads(s).None? && p.jsonLoads(QuoteSwapped(s)).None? && p.literalEval(s).None?)
  {
  }

  /** The fragment loop is a homomorphism: fragments contribute in order, each on its own. */
  lemma FragmentItemsAppend(p: Parsers, a: seq<string>, b: seq<string>)
    ensures FragmentItems(p, a + b) == FragmentItems(p, a) + FragmentItems(p, b)
  {
    FlatMapAppend(a, b, Contributions(p));
  }

  /** A single fragment contributes exactly its `FragmentItem`, if any. */
  lemma FragmentItemsSingle(p: Parsers, m: string)
    ensures FragmentItems(p, [m]) == (if FragmentItem(p, m).Some? then [FragmentItem(p, m).value] else [])
  {
    assert [m][..0] == [];
    assert FragmentItems(p, [m]) == FlatMap([], Contributions(p)) + Contribution(p, m);
  }

  /**
   * The recovered dicts: one per contributing fragment, in fragment order.
   * A fragment contributes when it literal-parses to a dict or has a loose
   * `id` or `name`, so every item is a dict.
   */
  lemma FragmentItemsExact(p: Parsers, ms: seq<string>)
    ensures forall d :: d in FragmentItems(p, ms) ==> d.PyDict? && exists k :: 0 <= k < |ms| && FragmentItem(p, ms[k]) == Some(d)
    ensures FragmentItems(p, ms) == [] <==> forall k :: 0 <= k < |ms| ==> FragmentItem(p, ms[k]).None?
  {
    var f := Contributions(p);
    forall d | d in FragmentItems(p, ms)
      ensures d.PyDict? && exists k :: 0 <= k < |ms| && FragmentItem(p, ms[k]) == Some(d)
    {
      FlatMapMember(ms, f, d);
      var k :| 0 <= k < |ms| && d in f(ms[k]);
      assert FragmentItem(p, ms[k]) == Some(d);
    }
    FlatMapEmpty(ms, f);
    assert forall k :: 0 <= k < |ms| ==> (f(ms[k]) == [] <==> FragmentItem(p, ms[k]).None?);
  }

  /**
   * The comma fallback: the text has a comma, starts with neither `[` nor
   * `{`, has no colon, and every earlier strategy failed; the labels are
   * the trimmed non-empty comma segments, in order.
   */
  lemma PlainListShape(p: Parsers, t: string)
    requires Classify(p, PyStr(t)).PlainList?
    ensures var s := Strip(t); var labels := Classify(p, PyStr(t)).labels;
      && StructuredTier(p, s).None?
      && FragmentItems(p, BraceMatches(s)) == []
      && ',' in s && !StartsWith(s, "[") && !StartsWith(s, "{") && ':' !in s
      && labels == Segments(s) && labels != []
      && (forall k :: 0 <= k < |labels| ==> labels[k] != [] && IsStripped(labels[k]) && ',' !in labels[k])
      && ParseJsonLike(p, PyStr(t)) == PyList(PyStrs(labels))
  {
    var s := Strip(t);
    var o := Classify(p, PyStr(t));
    assert o == ClassifyText(p, s);
    PlainListText(p, s);
    SegmentShape(s);
    assert ParseJsonLike(p, PyStr(t)) == PyList(PyStrs(o.labels));
  }

  /** A comma-list verdict on stripped text: every earlier tier failed and the comma tier gave the labels. */
  lemma PlainListText(p: Parsers, s: string)
    requires ClassifyText(p, s).PlainList?
    ensures !IsEmptyToken(s) && StructuredTier(p, s).None?
    ensures FragmentItems(p, BraceMatches(s)) == []
    ensures CommaTier(s) == Some(ClassifyText(p, s).labels)
  {
    assert ClassifyText(p, s) == Fallback(p, s);
  }

  /** A plain label: non-empty, stripped, and free of the characters the ladder looks for. */
  predicate IsPlainLabel(a: string) {
    a != [] && IsStripped(a) && ',' !in a && ':' !in a && '{' !in a && a[0] != '['
  }

  /** "a, b" splits at its one comma. */
  lemma TwoLabelSplit(a: string, b: string)
    requires ',' !in a && ',' !in b
    ensures Split(a + ", " + b, ',') == [a, [' '] + b]
  {
    assert a + ", " + b == a + [','] + ([' '] + b);
    SplitAtFirst(a, [' '] + b, ',');
    SplitNoSeparator([' '] + b, ',');
  }

  /** The comma segments of "a, b" for two plain labels. */
  lemma TwoLabelSegments(a: string, b: string)
    requires IsPlainLabel(a) && IsPlainLabel(b)
    ensures Segments(a + ", " + b) == [a, b]
  {
    TwoLabelSplit(a, b);
    var parts := [a, [' '] + b];
    StrippedIsFixed(a);
    StrippedIsFixed(b);
    StripLeadingSpace(' ', b);
    assert parts[..1] == [a] && [a][..0] == [];
    assert StrippedNonBlank([a]) == [a];
    assert StrippedNonBlank(parts) == StrippedNonBlank([a]) + [b];
  }

  /** "a, b" for two plain labels holds no `:` and no `{`. */
  lemma TwoLabelChars(a: string, b: string)
    requires IsPlainLabel(a) && IsPlainLabel(b)
    ensures ':' !in a + ", " + b && '{' !in a + ", " + b
  {
    var s := a + ", " + b;
    forall i | 0 <= i < |s|
      ensures s[i] != ':' && s[i] != '{'
    {
      if i < |a| {
        assert s[i] == a[i];
      } else if i >= |a| + 2 {
        assert s[i] == b[i - |a| - 2];
      }
    }
  }

  /** "a, b" for two plain labels is stripped and not an empty token. */
  lemma TwoLabelToken(a: string, b: string)
    requires IsPlainLabel(a) && IsPlainLabel(b)
    ensures IsStripped(a + ", " + b)
    ensures !IsEmptyToken(a + ", " + b)
  {
    var s := a + ", " + b;
    assert s[0] == a[0] && s[|s| - 1] == b[|b| - 1];
    assert LowerAscii(s)[|a|] == ',';
  }

  /** Text that is already stripped is classified as it stands. */
  lemma ClassifyStripped(p: Parsers, t: string)
    requires IsStripped(t)
    ensures Classify(p, PyStr(t)) == ClassifyText(p, t)
  {
    StrippedIsFixed(t);
  }

  /** "a, b" for two plain labels is a comma list of the two labels. */
  lemma TwoLabelComma(a: string, b: string)
    requires IsPlainLabel(a) && IsPlainLabel(b)
    ensures CommaTier(a + ", " + b) == Some([a, b])
  {
    var s := a + ", " + b;
    assert s[|a|] == ',' && s[0] == a[0];
    TwoLabelChars(a, b);
    TwoLabelSegments(a, b);
  }

  /** Without a `{`, the fallback is the comma tier. */
  lemma FallbackWithoutBraces(p: Parsers, s: string)
    requires '{' !in s
    ensures Fallback(p, s) == (match CommaTier(s) case Some(parts) => PlainList(parts) case None => NoItems)
  {
    NoOpenBraceNoMatch(s, 0);
    assert FragmentItems(p, []) == [];
  }

  /**
   * Two plain labels joined by ", ", which no parser accepts, come back as
   * the two labels: "Action, Adventure" gives ["Action", "Adventure"].
   */
  lemma TwoLabelList(p: Parsers, a: string, b: string)
    requires IsPlainLabel(a) && IsPlainLabel(b)
    requires p.jsonLoads(a + ", " + b).None?
    requires p.jsonLoads(QuoteSwapped(a + ", " + b)).None?
    requires p.literalEval(a + ", " + b).None?
    ensures ParseJsonLike(p, PyStr(a + ", " + b)) == PyList([PyStr(a), PyStr(b)])
  {
    var s := a + ", " + b;
    TwoLabelChars(a, b);
    TwoLabelToken(a, b);
    TwoLabelComma(a, b);
    assert StructuredTier(p, s).None?;
    CommaListParse(p, s, [a, b]);
    PyStrsPair(a, b);
  }

  /** Two labels as Python strings. */
  lemma PyStrsPair(a: string, b: string)
    ensures PyStrs([a, b]) == [PyStr(a), PyStr(b)]
  {
  }

  /** Stripped text without `{` that no parser accepts comes back as its comma list, when it has one. */
  lemma CommaListParse(p: Parsers, s: string, labels: seq<string>)
    requires IsStripped(s) && !IsEmptyToken(s) && '{' !in s
    requires StructuredTier(p, s).None?
    requires CommaTier(s) == Some(labels)
    ensures ParseJsonLike(p, PyStr(s)) == PyList(PyStrs(labels))
  {
    FallbackWithoutBraces(p, s);
    ClassifyStripped(p, s);
  }

  /** The loose sample is stripped and not an empty token. */
  lemma LooseSampleText()
    ensures IsStripped("{id: 28, name: Action}") && !IsEmptyToken("{id: 28, name: Action}")
  {
    var s := "{id: 28, name: Action}";
    assert LowerAscii(s)[0] == '{';
  }

  /**
   * Stripped text that no parser accepts and that is one whole fragment
   * comes back as the one dict that fragment contributes.
   */
  lemma SingleFragmentParse(p: Parsers, s: string, d: PyValue)
    requires IsStripped(s) && !IsEmptyToken(s)
    requires StructuredTier(p, s).None?
    requires BraceMatches(s) == [s]
    requires FragmentItem(p, s) == Some(d)
    ensures ParseJsonLike(p, PyStr(s)) == PyList([d])
  {
    FragmentItemsSingle(p, s);
    assert Fallback(p, s) == FragmentRecovered([d]);
    ClassifyStripped(p, s);
  }

  /** The loose match of the sample fragment: the dict of its `id` and `name` text. */
  lemma LooseSampleItem(p: Parsers)
    requires p.literalEval("{id: 28, name: Action}").None?
    ensures FragmentItem(p, "{id: 28, name: Action}")
         == Some(PyDict([(PyStr("id"), PyStr("28")), (PyStr("name"), PyStr("Action"))]))
  {
    SampleLooseId();
    SampleLooseName();
  }

  /**
   * "{id: 28, name: Action}", which no parser accepts, is recovered by the
   * loose match as one dict whose id is the string "28", not an integer.
   */
  lemma LooseFragmentExample(p: Parsers)
    requires p.jsonLoads("{id: 28, name: Action}").None?
    requires p.jsonLoads(QuoteSwapped("{id: 28, name: Action}")).None?
    requires p.literalEval("{id: 28, name: Action}").None?
    ensures ParseJsonLike(p, PyStr("{id: 28, name: Action}"))
         == PyList([PyDict([(PyStr("id"), PyStr("28")), (PyStr("name"), PyStr("Action"))])])
  {
    LooseSampleText();
    SampleBraceMatches();
    LooseSampleItem(p);
    SingleFragmentParse(p, "{id: 28, name: Action}", PyDict([(PyStr("id"), PyStr("28")), (PyStr("name"), PyStr("Action"))]));
  }
}
