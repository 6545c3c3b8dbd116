/**
 * `escapeRegex` and `highlightText`. The pattern `(<escaped query>)` with the
 * flags `gi` is a literal, case-insensitive pattern; the model reads the literal
 * back out of the escaped pattern and replaces the regular-expression engine by
 * a left-to-right scan for it.
 */
module Highlight {
  import opened Text

  /** The characters of the class `[.*+?^${}()|[\]\\]`. */
  const Metacharacters: string := ".*+?^${}()|[]\\"

  predicate IsMeta(c: char) {
    c in Metacharacters
  }

  function MetaCount(s: string): nat {
    if s == [] then 0 else (if IsMeta(s[0]) then 1 else 0) + MetaCount(s[1..])
  }

  /** `p` is a sequence of literal atoms: characters outside the class, or a backslash and a metacharacter. */
  predicate WellEscaped(p: string)
    decreases |p|
  {
    if p == [] then true
    else if p[0] == '\\' then |p| >= 2 && IsMeta(p[1]) && WellEscaped(p[2..])
    else !IsMeta(p[0]) && WellEscaped(p[1..])
  }

  /** The literal text a pattern of literal atoms stands for: each escaping backslash is dropped. */
  function Unescape(p: string): string
    decreases |p|
  {
    if p == [] then []
    else if p[0] == '\\' && |p| >= 2 then [p[1]] + Unescape(p[2..])
    else [p[0]] + Unescape(p[1..])
  }

  /** `escapeRegex`: every metacharacter gets a backslash in front of it; other characters are copied. */
  function EscapeRegex(s: string): (r: string)
    ensures |r| == |s| + MetaCount(s)
    ensures WellEscaped(r)
    ensures Unescape(r) == s
    decreases |s|
  {
    if s == [] then []
    else
      var rest := EscapeRegex(s[1..]);
      if IsMeta(s[0]) then
        assert (['\\', s[0]] + rest)[2..] == rest;
        ['\\', s[0]] + rest
      else
        assert ([s[0]] + rest)[1..] == rest;
        [s[0]] + rest
  }

  lemma {:induction false} EscapeRegexAppend(a: string, b: string)
    ensures EscapeRegex(a + b) == EscapeRegex(a) + EscapeRegex(b)
    ensures MetaCount(a + b) == MetaCount(a) + MetaCount(b)
    decreases |a|
  {
    if a == [] {
      assert a + b == b;
    } else {
      assert (a + b)[0] == a[0] && (a + b)[1..] == a[1..] + b;
      EscapeRegexAppend(a[1..], b);
    }
  }

  /**
   * Character `i` of the input lands after the `MetaCount(s[..i])` backslashes inserted
   * before it; a metacharacter is preceded by its own backslash, anything else is copied.
   */
  lemma EscapeRegexAt(s: string, i: nat)
    requires i < |s|
    ensures var j := i + MetaCount(s[..i]); var r := EscapeRegex(s);
      if IsMeta(s[i]) then j + 1 < |r| && r[j] == '\\' && r[j + 1] == s[i]
      else j < |r| && r[j] == s[i]
  {
    var pre, c, post := s[..i], s[i], s[i + 1..];
    assert s == pre + ([c] + post);
    EscapeRegexAppend(pre, [c] + post);
    EscapeRegexAppend([c], post);
    assert [c][1..] == [];
  }

  /** A stretch of the highlighted text: a character left alone, or a wrapped occurrence. */
  datatype Piece = Plain(c: char) | Marked(s: string)

  const OpenTag: string := "<mark class=" + "\"bg-yellow-200 dark:bg-yellow-800\"" + ">"
  const CloseTag: string := "</mark>"

  /** The original characters a piece covers. */
  function PieceText(p: Piece): string {
    match p
    case Plain(c) => [c]
    case Marked(s) => s
  }

  /** What `'<mark ...>$1</mark>'` makes of a piece. */
  function PieceMarkup(p: Piece): string {
    match p
    case Plain(c) => [c]
    case Marked(s) => OpenTag + s + CloseTag
  }

  function Flatten(ps: seq<Piece>): string {
    if ps == [] then [] else PieceText(ps[0]) + Flatten(ps[1..])
  }

  function Render(ps: seq<Piece>): string {
    if ps == [] then [] else PieceMarkup(ps[0]) + Render(ps[1..])
  }

  function MarkCount(ps: seq<Piece>): nat {
    if ps == [] then 0 else (if ps[0].Marked? then 1 else 0) + MarkCount(ps[1..])
  }

  /** The same characters up to case, as the `i` flag compares them. */
  predicate EqualIgnoringCase(a: string, b: string) {
    |a| == |b| && (a == [] || (LowerChar(a[0]) == LowerChar(b[0]) && EqualIgnoringCase(a[1..], b[1..])))
  }

  lemma {:induction false} EqualIgnoringCaseIff(a: string, b: string)
    ensures EqualIgnoringCase(a, b) <==> Lower(a) == Lower(b)
  {
    if |a| == |b| && a != [] {
      EqualIgnoringCaseIff(a[1..], b[1..]);
      assert Lower(a) == [LowerChar(a[0])] + Lower(a[1..]);
      assert Lower(b) == [LowerChar(b[0])] + Lower(b[1..]);
      if Lower(a) == Lower(b) {
        assert Lower(a)[0] == Lower(b)[0];
        assert Lower(a)[1..] == Lower(b)[1..];
      }
    } else if |a| != |b| {
      assert |Lower(a)| != |Lower(b)|;
    }
  }

  /** The pattern matches at index `i` of `text`. */
  predicate MatchesAt(text: string, q: string, i: int) {
    0 <= i && i + |q| <= |text| && EqualIgnoringCase(text[i..i + |q|], q)
  }

  /**
   * A global replace of the literal `q`: the leftmost occurrence is wrapped and the
   * scan goes on after it, so occurrences never overlap.
   */
  function Pieces(text: string, q: string): (r: seq<Piece>)
    requires q != []
    ensures Flatten(r) == text
    decreases |text|
  {
    if text == [] then []
    else if MatchesAt(text, q, 0) then
      var rest := Pieces(text[|q|..], q);
      assert text[..|q|] + text[|q|..] == text;
      assert ([Marked(text[..|q|])] + rest)[1..] == rest;
      [Marked(text[..|q|])] + rest
    else
      var rest := Pieces(text[1..], q);
      assert [text[0]] + text[1..] == text;
      assert ([Plain(text[0])] + rest)[1..] == rest;
      [Plain(text[0])] + rest
  }

  /** `highlightText(text, query)` */
  function HighlightText(text: string, query: string): (r: string)
    ensures query == [] ==> r == text
    ensures query != [] ==> r == Render(Pieces(text, query))
  {
    if query == [] then text
    else
      var literal := Unescape(EscapeRegex(query));
      Render(Pieces(text, literal))
  }

  lemma MatchesAtShift(text: string, q: string, a: nat, i: int)
    requires a <= |text| && 0 <= i
    ensures MatchesAt(text[a..], q, i) <==> MatchesAt(text, q, a + i)
  {
    if 0 <= i && i + |q| <= |text| - a {
      assert text[a..][i..i + |q|] == text[a + i..a + i + |q|];
    }
  }

  /** Where nothing matches, every piece is a plain character and the markup is the text itself. */
  lemma {:induction false} PiecesWithoutMatch(text: string, q: string)
    requires q != []
    requires forall i :: !MatchesAt(text, q, i)
    ensures MarkCount(Pieces(text, q)) == 0
    ensures Render(Pieces(text, q)) == text
    decreases |text|
  {
    if text != [] {
      assert !MatchesAt(text, q, 0);
      forall i | 0 <= i ensures !MatchesAt(text[1..], q, i) {
        MatchesAtShift(text, q, 1, i);
      }
      PiecesWithoutMatch(text[1..], q);
      var rest := Pieces(text[1..], q);
      assert ([Plain(text[0])] + rest)[1..] == rest;
      assert [text[0]] + text[1..] == text;
    }
  }

  /** A query that occurs nowhere (ignoring case) leaves the text unchanged. */
  lemma HighlightWithoutOccurrence(text: string, query: string)
    requires forall i :: !MatchesAt(text, query, i)
    ensures HighlightText(text, query) == text
  {
    if query != [] {
      PiecesWithoutMatch(text, query);
    }
  }

  lemma FlattenCons(x: Piece, rest: seq<Piece>)
    ensures Flatten([x] + rest) == PieceText(x) + Flatten(rest)
  {
    assert ([x] + rest)[1..] == rest;
  }

  /** The first piece, and how many characters it covers. */
  lemma PiecesUnfold(text: string, q: string)
    requires q != [] && text != []
    ensures var r := Pieces(text, q);
      var step := if MatchesAt(text, q, 0) then |q| else 1;
      step <= |text| && r == [r[0]] + Pieces(text[step..], q) &&
      |PieceText(r[0])| == step && (r[0].Marked? <==> MatchesAt(text, q, 0)) &&
      (r[0].Marked? ==> EqualIgnoringCase(r[0].s, q))
  {
  }

  /**
   * Every wrapped stretch is an occurrence of the pattern: it has the pattern's
   * length and equals it up to case.
   */
  lemma {:induction false} WrappedSegmentsEqualQuery(text: string, q: string)
    requires q != []
    ensures forall k :: 0 <= k < |Pieces(text, q)| && Pieces(text, q)[k].Marked? ==>
      EqualIgnoringCase(Pieces(text, q)[k].s, q)
    decreases |text|
  {
    if text != [] {
      PiecesUnfold(text, q);
      var step := if MatchesAt(text, q, 0) then |q| else 1;
      WrappedSegmentsEqualQuery(text[step..], q);
      var r, rest := Pieces(text, q), Pieces(text[step..], q);
      assert forall k :: 1 <= k < |r| ==> r[k] == rest[k - 1];
    }
  }

  /**
   * A piece is wrapped exactly when an occurrence of the pattern starts where it
   * stands: the scan misses no occurrence it could have taken.
   */
  lemma {:induction false} PieceKindAt(text: string, q: string, k: nat)
    requires q != []
    requires k < |Pieces(text, q)|
    ensures Pieces(text, q)[k].Marked? <==> MatchesAt(text, q, |Flatten(Pieces(text, q)[..k])|)
    decreases |text|
  {
    var r := Pieces(text, q);
    if k > 0 {
      var step := if MatchesAt(text, q, 0) then |q| else 1;
      PieceAfterFirst(text, q, k);
      var rest := Pieces(text[step..], q);
      var pos := |Flatten(rest[..k - 1])|;
      assert r[k] == rest[k - 1] && |Flatten(r[..k])| == step + pos;
      assert rest[k - 1].Marked? <==> MatchesAt(text[step..], q, pos) by {
        PieceKindAt(text[step..], q, k - 1);
      }
      assert MatchesAt(text[step..], q, pos) <==> MatchesAt(text, q, step + pos) by {
        MatchesAtShift(text, q, step, pos);
      }
    } else {
      assert r[0].Marked? <==> MatchesAt(text, q, 0) by {
        PiecesUnfold(text, q);
      }
      assert r[..0] == [];
    }
  }

  /** Piece `k` of a text is piece `k - 1` of what follows the first piece, shifted by that piece's length. */
  lemma PieceAfterFirst(text: string, q: string, k: nat)
    requires q != [] && 0 < k < |Pieces(text, q)|
    ensures var step := if MatchesAt(text, q, 0) then |q| else 1;
      step <= |text| && k - 1 < |Pieces(text[step..], q)| &&
      Pieces(text, q)[k] == Pieces(text[step..], q)[k - 1] &&
      |Flatten(Pieces(text, q)[..k])| == step + |Flatten(Pieces(text[step..], q)[..k - 1])|
  {
    PiecesUnfold(text, q);
    var step := if MatchesAt(text, q, 0) then |q| else 1;
    FlattenPrefixCons(Pieces(text, q)[0], Pieces(text[step..], q), k);
  }

  lemma FlattenPrefixCons(x: Piece, rest: seq<Piece>, k: nat)
    requires 0 < k <= |rest| + 1
    ensures |Flatten(([x] + rest)[..k])| == |PieceText(x)| + |Flatten(rest[..k - 1])|
  {
    assert ([x] + rest)[..k] == [x] + rest[..k - 1];
    FlattenCons(x, rest[..k - 1]);
  }

  /** An occurrence of the lower-cased query in the lower-cased text is a match of the pattern. */
  lemma LowerOccurrenceMatches(text: string, q: string, i: int)
    requires OccursAt(Lower(text), Lower(q), i)
    ensures MatchesAt(text, q, i)
  {
    LowerSlice(text, i, i + |q|);
    EqualIgnoringCaseIff(text[i..i + |q|], q);
  }

  /** If the pattern occurs at all, at least one stretch is wrapped. */
  lemma {:induction false} OccurrenceIsMarked(text: string, q: string, i: int)
    requires q != [] && MatchesAt(text, q, i)
    ensures MarkCount(Pieces(text, q)) > 0
    decreases |text|
  {
    if !MatchesAt(text, q, 0) {
      assert i > 0;
      MatchesAtShift(text, q, 1, i - 1);
      OccurrenceIsMarked(text[1..], q, i - 1);
      var rest := Pieces(text[1..], q);
      assert ([Plain(text[0])] + rest)[1..] == rest;
    } else {
      var rest := Pieces(text[|q|..], q);
      assert ([Marked(text[..|q|])] + rest)[1..] == rest;
    }
  }

  /** The markup is the text plus one pair of tags per wrapped stretch. */
  lemma {:induction false} RenderLength(ps: seq<Piece>)
    ensures |Render(ps)| == |Flatten(ps)| + MarkCount(ps) * (|OpenTag| + |CloseTag|)
  {
    if ps != [] {
      RenderLength(ps[1..]);
    }
  }

  predicate StartsWith(s: string, prefix: string) {
    |prefix| <= |s| && s[..|prefix|] == prefix
  }

  /** Deletes every `<mark ...>` and `</mark>` tag of the form `highlightText` inserts. */
  function Strip(s: string): string
    decreases |s|
  {
    if s == [] then []
    else if StartsWith(s, OpenTag) then Strip(s[|OpenTag|..])
    else if StartsWith(s, CloseTag) then Strip(s[|CloseTag|..])
    else [s[0]] + Strip(s[1..])
  }

  lemma {:induction false} StripUntagged(x: string, rest: string)
    requires '<' !in x
    ensures Strip(x + rest) == x + Strip(rest)
    decreases |x|
  {
    if x != [] {
      var s := x + rest;
      assert s[0] == x[0] && x[0] in x;
      assert OpenTag[0] == '<';
      assert CloseTag[0] == '<';
      assert !StartsWith(s, OpenTag) && !StartsWith(s, CloseTag);
      assert s[1..] == x[1..] + rest;
      StripUntagged(x[1..], rest);
    } else {
      assert x + rest == rest;
    }
  }

  lemma StartsWithConcat(prefix: string, rest: string)
    ensures StartsWith(prefix + rest, prefix) && (prefix + rest)[|prefix|..] == rest
  {
    assert (prefix + rest)[..|prefix|] == prefix;
  }

  lemma StripWrapped(x: string, rest: string)
    requires '<' !in x
    ensures Strip(OpenTag + x + CloseTag + rest) == x + Strip(rest)
  {
    assert OpenTag + x + CloseTag + rest == OpenTag + (x + (CloseTag + rest));
    StartsWithConcat(OpenTag, x + (CloseTag + rest));
    StripUntagged(x, CloseTag + rest);
    StartsWithConcat(CloseTag, rest);
    assert !StartsWith(CloseTag + rest, OpenTag) by {
      assert OpenTag[1] == 'm' && CloseTag[1] == '/';
    }
  }

  lemma {:induction false} StripRender(ps: seq<Piece>)
    requires '<' !in Flatten(ps)
    ensures Strip(Render(ps)) == Flatten(ps)
  {
    if ps != [] {
      var head, rest := PieceText(ps[0]), Flatten(ps[1..]);
      assert Flatten(ps) == head + rest;
      assert '<' !in head && '<' !in rest by {
        forall c | c in head ensures c in Flatten(ps) { }
        forall c | c in rest ensures c in Flatten(ps) { }
      }
      StripRender(ps[1..]);
      match ps[0]
      case Plain(c) =>
        StripUntagged([c], Render(ps[1..]));
      case Marked(s) =>
        StripWrapped(s, Render(ps[1..]));
        assert OpenTag + s + CloseTag + Render(ps[1..]) == Render(ps);
    }
  }

  /** Removing the inserted tags gives back the original text (for text that holds no '<'). */
  lemma HighlightStripsBack(text: string, query: string)
    requires '<' !in text
    ensures Strip(HighlightText(text, query)) == text
  {
    if query == [] {
      StripUntagged(text, []);
      assert text + [] == text;
    } else {
      StripRender(Pieces(text, query));
    }
  }

  /** Highlighting only inserts: the result is never shorter than the text. */
  lemma HighlightNeverShrinks(text: string, query: string)
    ensures |HighlightText(text, query)| >= |text|
  {
    if query != [] {
      var ps := Pieces(text, query);
      RenderLength(ps);
      assert |Flatten(ps)| == |text|;
      var m, t := MarkCount(ps), |OpenTag| + |CloseTag|;
      assert 0 <= m * t by {
        assert 0 <= t;
      }
      assert HighlightText(text, query) == Render(ps);
    }
  }

  /** A query longer than the text cannot occur in it, so nothing is marked. */
  lemma HighlightLongQuery(text: string, query: string)
    ensures |query| > |text| ==> HighlightText(text, query) == text
  {
    if |query| > |text| {
      HighlightWithoutOccurrence(text, query);
    }
  }

  /** A query that occurs somewhere (ignoring case) makes the result longer than the text: a mark was inserted. */
  lemma HighlightMarksOccurrence(text: string, query: string, i: int)
    requires query != [] && MatchesAt(text, query, i)
    ensures |HighlightText(text, query)| > |text|
  {
    var ps := Pieces(text, query);
    OccurrenceIsMarked(text, query, i);
    RenderLength(ps);
    assert |Flatten(ps)| == |text|;
    var m, t := MarkCount(ps), |OpenTag| + |CloseTag|;
    assert t > 0 by {
      assert CloseTag[0] == '<';
    }
    MultipleAtLeast(m, t);
    assert HighlightText(text, query) == Render(ps);
  }

  lemma MultipleAtLeast(m: nat, t: nat)
    requires m >= 1
    ensures m * t >= t
  {
    assert m * t == (m - 1) * t + t;
  }

  /**
   * The highlighted text is the rendering of a cut of `text` whose wrapped stretches
   * are exactly occurrences of the query, taken leftmost first and without overlap.
   */
  lemma HighlightWrapsExactlyOccurrences(text: string, query: string)
    requires query != []
    ensures var ps := Pieces(text, query);
      HighlightText(text, query) == Render(ps) && Flatten(ps) == text &&
      (forall k :: 0 <= k < |ps| && ps[k].Marked? ==> EqualIgnoringCase(ps[k].s, query)) &&
      (forall k :: 0 <= k < |ps| ==> (ps[k].Marked? <==> MatchesAt(text, query, |Flatten(ps[..k])|)))
  {
    WrappedSegmentsEqualQuery(text, query);
    forall k | 0 <= k < |Pieces(text, query)|
      ensures Pieces(text, query)[k].Marked? <==> MatchesAt(text, query, |Flatten(Pieces(text, query)[..k])|)
    {
      PieceKindAt(text, query, k);
    }
  }
}
