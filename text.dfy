/**
 * The string primitives of Python that the pipeline relies on: `str.isspace`,
 * `str.strip()`, `str.strip(chars)`, `str.lower()` (on the ASCII letters),
 * `str.replace` of one character, `str.split(sep)` and `str.startswith`.
 */
module Text {

  /** `c.isspace()` in Python 3: the Unicode white-space and separator characters. */
  predicate IsSpace(c: char) {
    || ('\t' <= c <= '\r')
    || ('\U{1C}' <= c <= '\U{1F}')
    || c == ' ' || c == '\U{85}' || c == '\U{A0}' || c == '\U{1680}'
    || ('\U{2000}' <= c <= '\U{200A}')
    || c == '\U{2028}' || c == '\U{2029}' || c == '\U{202F}' || c == '\U{205F}'
    || c == '\U{3000}'
  }

  /** True when `s` consists of white space only (this includes the empty string). */
  predicate IsBlank(s: string) {
    forall i :: 0 <= i < |s| ==> IsSpace(s[i])
  }

  /** Drops the leading white space. */
  function TrimStart(s: string): string {
    if s != [] && IsSpace(s[0]) then TrimStart(s[1..]) else s
  }

  /** What `TrimStart` keeps is a suffix that starts with a non-space; what it drops is blank. */
  lemma {:induction false} TrimStartShape(s: string)
    ensures |TrimStart(s)| <= |s| && TrimStart(s) == s[|s| - |TrimStart(s)|..]
    ensures TrimStart(s) == [] || !IsSpace(TrimStart(s)[0])
    ensures IsBlank(s[..|s| - |TrimStart(s)|])
  {
    if s != [] && IsSpace(s[0]) {
      TrimStartShape(s[1..]);
      var k := |s| - |TrimStart(s)|;
      assert s[1..][k - 1..] == s[k..];
      forall i | 0 <= i < k
        ensures IsSpace(s[..k][i])
      {
        if i > 0 {
          assert s[..k][i] == s[1..][..k - 1][i - 1];
        }
      }
    }
  }

  /** Drops the trailing white space. */
  function TrimEnd(s: string): string {
    if s != [] && IsSpace(s[|s| - 1]) then TrimEnd(s[..|s| - 1]) else s
  }

  /** What `TrimEnd` keeps is a prefix that ends with a non-space; what it drops is blank. */
  lemma {:induction false} TrimEndShape(s: string)
    ensures |TrimEnd(s)| <= |s| && TrimEnd(s) == s[..|TrimEnd(s)|]
    ensures TrimEnd(s) == [] || !IsSpace(TrimEnd(s)[|TrimEnd(s)| - 1])
    ensures IsBlank(s[|TrimEnd(s)|..])
  {
    if s != [] && IsSpace(s[|s| - 1]) {
      var init := s[..|s| - 1];
      TrimEndShape(init);
      var k := |TrimEnd(s)|;
      assert init[..k] == s[..k];
      forall i | 0 <= i < |s| - k
        ensures IsSpace(s[k..][i])
      {
        if i < |s| - 1 - k {
          assert s[k..][i] == init[k..][i];
        }
      }
    }
  }

  /** Python's `s.strip()`: no white space is left at either end. */
  function Strip(s: string): (r: string)
    ensures IsStripped(r)
  {
    TrimStartShape(s);
    TrimEndShape(TrimStart(s));
    TrimEnd(TrimStart(s))
  }

  /** A string that `strip()` leaves alone: empty, or non-space at both ends. */
  predicate IsStripped(s: string) {
    s == [] || (!IsSpace(s[0]) && !IsSpace(s[|s| - 1]))
  }

  /** `s.strip()` is the middle of `s` once the white space at both ends is cut off. */
  lemma StripShape(s: string)
    ensures IsStripped(Strip(s))
    ensures exists i, j :: 0 <= i <= j <= |s| && Strip(s) == s[i..j] && IsBlank(s[..i]) && IsBlank(s[j..])
  {
    var t := TrimStart(s);
    var r := TrimEnd(t);
    TrimStartShape(s);
    TrimEndShape(t);
    var i := |s| - |t|;
    assert Strip(s) == s[i..i + |r|];
    assert IsBlank(s[i + |r|..]) by {
      assert s[i + |r|..] == t[|r|..];
    }
  }

  /** A stripped string is a fixed point of `strip()`. */
  lemma StrippedIsFixed(s: string)
    requires IsStripped(s)
    ensures Strip(s) == s
  {
  }

  /** A leading white-space character does not survive `strip()`. */
  lemma StripLeadingSpace(c: char, s: string)
    requires IsSpace(c)
    ensures Strip([c] + s) == Strip(s)
  {
    assert ([c] + s)[1..] == s;
    assert TrimStart([c] + s) == TrimStart(s);
  }

  /** `strip()` is idempotent. */
  lemma StripIdempotent(s: string)
    ensures Strip(Strip(s)) == Strip(s)
  {
    StripShape(s);
    StrippedIsFixed(Strip(s));
  }

  /** `s.strip() == ""` exactly when `s` is blank. */
  lemma StripEmptyIffBlank(s: string)
    ensures Strip(s) == [] <==> IsBlank(s)
  {
    var t := TrimStart(s);
    TrimStartShape(s);
    TrimEndShape(t);
    if t != [] {
      assert !IsSpace(t[0]);
      assert TrimEnd(t) != [];
      assert s[|s| - |t|] == t[0];
    }
  }

  /** One character of `str.lower()`; only the ASCII capitals are mapped. */
  function LowerChar(c: char): char {
    if 'A' <= c <= 'Z' then (c as int + 32) as char else c
  }

  /** `str.lower()` restricted to ASCII letters. */
  function LowerAscii(s: string): (r: string)
    ensures |r| == |s|
    ensures forall i :: 0 <= i < |r| ==> !('A' <= r[i] <= 'Z')
    ensures forall i :: 0 <= i < |s| && !('A' <= s[i] <= 'Z') ==> r[i] == s[i]
    ensures forall i :: 0 <= i < |s| && 'A' <= s[i] <= 'Z' ==> 'a' <= r[i] <= 'z' && r[i] as int - s[i] as int == 32
  {
    seq(|s|, i requires 0 <= i < |s| => LowerChar(s[i]))
  }

  /** Lower-casing twice is lower-casing once. */
  lemma LowerAsciiIdempotent(s: string)
    ensures LowerAscii(LowerAscii(s)) == LowerAscii(s)
  {
  }

  /** Python's `s.replace(from, to)` for one-character `from` and `to`. */
  function ReplaceChar(s: string, from: char, to: char): (r: string)
    ensures |r| == |s|
    ensures forall i :: 0 <= i < |s| ==> r[i] == (if s[i] == from then to else s[i])
  {
    seq(|s|, i requires 0 <= i < |s| => if s[i] == from then to else s[i])
  }

  /** Python's `s.startswith(p)`. */
  predicate StartsWith(s: string, p: string) {
    |p| <= |s| && s[..|p|] == p
  }

  /** Python's `s.strip(chars)`: drops leading and trailing characters in `cs`. */
  function StripChars(s: string, cs: set<char>): (r: string)
    ensures |r| <= |s|
    decreases |s|
  {
    if s != [] && s[0] in cs then StripChars(s[1..], cs)
    else if s != [] && s[|s| - 1] in cs then StripChars(s[..|s| - 1], cs)
    else s
  }

  /** `strip(chars)` changes nothing when neither end holds one of `chars`. */
  lemma StripCharsNoop(s: string, cs: set<char>)
    requires forall i :: 0 <= i < |s| ==> s[i] !in cs
    ensures StripChars(s, cs) == s
  {
  }

  /** Python's `s.split(sep)` for a one-character separator: the maximal pieces between separators. */
  function Split(s: string, sep: char): (parts: seq<string>)
    ensures |parts| >= 1
  {
    if s == [] then [""]
    else
      var rest := Split(s[1..], sep);
      if s[0] == sep then [""] + rest
      else [[s[0]] + rest[0]] + rest[1..]
  }

  /** No piece of a split holds the separator. */
  lemma {:induction false} SplitPiecesFree(s: string, sep: char)
    ensures forall k :: 0 <= k < |Split(s, sep)| ==> sep !in Split(s, sep)[k]
  {
    if s != [] {
      SplitPiecesFree(s[1..], sep);
      var rest := Split(s[1..], sep);
      if s[0] != sep {
        var parts := Split(s, sep);
        assert parts[0] == [s[0]] + rest[0];
        forall k | 0 <= k < |parts|
          ensures sep !in parts[k]
        {
          if k > 0 {
            assert parts[k] == rest[k];
          }
        }
      }
    }
  }

  /** Python's `sep.join(parts)`. */
  function Join(parts: seq<string>, sep: char): string
    requires |parts| >= 1
  {
    if |parts| == 1 then parts[0] else parts[0] + [sep] + Join(parts[1..], sep)
  }

  /** Splitting and joining again on the same separator gives back the text. */
  lemma {:induction false} JoinSplit(s: string, sep: char)
    ensures Join(Split(s, sep), sep) == s
  {
    if s != [] {
      var rest := Split(s[1..], sep);
      JoinSplit(s[1..], sep);
      if s[0] == sep {
        assert Split(s, sep) == [""] + rest;
        assert ([""] + rest)[1..] == rest;
      } else {
        var parts := Split(s, sep);
        assert parts == [[s[0]] + rest[0]] + rest[1..];
        if |rest| == 1 {
          assert Join(parts, sep) == [s[0]] + rest[0];
        } else {
          assert parts[1..] == rest[1..];
          assert Join(parts, sep) == [s[0]] + rest[0] + [sep] + Join(rest[1..], sep);
        }
      }
    }
  }

  /** A text without the separator is one piece. */
  lemma {:induction false} SplitNoSeparator(a: string, sep: char)
    requires sep !in a
    ensures Split(a, sep) == [a]
  {
    if a != [] {
      SplitNoSeparator(a[1..], sep);
      assert [a[0]] + a[1..] == a;
    }
  }

  /** The first separator ends the first piece. */
  lemma {:induction false} SplitAtFirst(a: string, b: string, sep: char)
    requires sep !in a
    ensures Split(a + [sep] + b, sep) == [a] + Split(b, sep)
  {
    if a == [] {
      assert a + [sep] + b == [sep] + b;
      assert ([sep] + b)[1..] == b;
    } else {
      SplitAtFirst(a[1..], b, sep);
      var s := a + [sep] + b;
      assert s[0] == a[0] && s[1..] == a[1..] + [sep] + b;
      assert [a[0]] + a[1..] == a;
    }
  }

  /** `[p.strip() for p in parts if p.strip()]`. */
  function StrippedNonBlank(parts: seq<string>): (r: seq<string>)
    ensures |r| <= |parts|
    ensures forall k :: 0 <= k < |r| ==> r[k] != [] && IsStripped(r[k])
  {
    if parts == [] then []
    else
      var prev := StrippedNonBlank(parts[..|parts| - 1]);
      var t := Strip(parts[|parts| - 1]);
      if t != [] then prev + [t] else prev
  }

  /** `[x.strip() for x in s.split(",") if x.strip()]`: the comma-separated labels of a cell. */
  function Segments(s: string): seq<string> {
    StrippedNonBlank(Split(s, ','))
  }

  /** A segment is a non-empty, stripped piece of the text that holds no comma. */
  lemma SegmentShape(s: string)
    ensures forall k :: 0 <= k < |Segments(s)| ==> Segments(s)[k] != [] && IsStripped(Segments(s)[k]) && ',' !in Segments(s)[k]
  {
    var parts := Split(s, ',');
    var segs := Segments(s);
    assert segs == StrippedNonBlank(parts);
    SplitPiecesFree(s, ',');
    forall k | 0 <= k < |segs|
      ensures ',' !in segs[k]
    {
      StrippedNonBlankFrom(parts, k);
      var m :| 0 <= m < |parts| && segs[k] == Strip(parts[m]);
      StripKeepsOut(parts[m], ',');
    }
  }

  /** Stripping a string brings in no character it did not hold. */
  lemma StripKeepsOut(p: string, c: char)
    requires c !in p
    ensures c !in Strip(p)
  {
    StripShape(p);
    var i, j :| 0 <= i <= j <= |p| && Strip(p) == p[i..j];
    forall n | 0 <= n < j - i
      ensures Strip(p)[n] != c
    {
      assert Strip(p)[n] == p[i + n];
    }
  }

  /** Keeping the non-blank stripped pieces of two blocks is keeping those of each, in order. */
  lemma {:induction false} StrippedNonBlankAppend(a: seq<string>, b: seq<string>)
    ensures StrippedNonBlank(a + b) == StrippedNonBlank(a) + StrippedNonBlank(b)
    decreases |b|
  {
    if b == [] {
      assert a + b == a;
    } else {
      var n := |b| - 1;
      StrippedNonBlankAppend(a, b[..n]);
      assert (a + b)[..|a + b| - 1] == a + b[..n];
      assert (a + b)[|a + b| - 1] == b[n];
    }
  }

  /** Every piece whose stripped form is non-empty is kept, stripped. */
  lemma {:induction false} StrippedNonBlankComplete(parts: seq<string>, m: nat)
    requires m < |parts| && Strip(parts[m]) != []
    ensures Strip(parts[m]) in StrippedNonBlank(parts)
  {
    var n := |parts| - 1;
    if m < n {
      StrippedNonBlankComplete(parts[..n], m);
      assert parts[..n][m] == parts[m];
    }
  }

  /** Each element of `StrippedNonBlank(parts)` is the stripped form of one of the parts. */
  lemma {:induction false} StrippedNonBlankFrom(parts: seq<string>, k: nat)
    requires k < |StrippedNonBlank(parts)|
    ensures exists m :: 0 <= m < |parts| && StrippedNonBlank(parts)[k] == Strip(parts[m])
  {
    var init := parts[..|parts| - 1];
    var prev := StrippedNonBlank(init);
    if k < |prev| {
      StrippedNonBlankFrom(init, k);
      var m :| 0 <= m < |init| && prev[k] == Strip(init[m]);
      assert parts[m] == init[m];
    } else {
      assert StrippedNonBlank(parts)[k] == Strip(parts[|parts| - 1]);
    }
  }
}
