/** The attribute names of a rule, read from its text: the text is split at
    the logical operators and at the comparators, and every identifier that
    stands as a whole word in a part is collected into a set. */
module Attributes {
  import opened Tokens

  // ---------------------------------------------------------------------
  // Character runs
  // ---------------------------------------------------------------------

  /** The end of the run of `\s` characters that starts at `p`. */
  function SpaceEnd(s: string, p: nat): (e: nat)
    requires p <= |s|
    ensures p <= e <= |s|
    ensures forall m :: p <= m < e ==> IsSpace(s[m])
    ensures e < |s| ==> !IsSpace(s[e])
    decreases |s| - p
  {
    if p < |s| && IsSpace(s[p]) then SpaceEnd(s, p + 1) else p
  }

  /** The end of the run of `\w` characters that starts at `p`. */
  function WordEnd(s: string, p: nat): (e: nat)
    requires p <= |s|
    ensures p <= e <= |s|
    ensures forall m :: p <= m < e ==> IsWordChar(s[m])
    ensures e < |s| ==> !IsWordChar(s[e])
    decreases |s| - p
  {
    if p < |s| && IsWordChar(s[p]) then WordEnd(s, p + 1) else p
  }

  // ---------------------------------------------------------------------
  // The split delimiter
  // ---------------------------------------------------------------------

  /** `(AND|OR)` ignoring case at `k`: the length matched, AND tried first. */
  function KeywordAt(s: string, k: nat): (n: nat)
    requires k <= |s|
    ensures n == 0 || n == 3 || n == 2
    ensures n > 0 ==> k + n <= |s| && IsKeyword(s[k..k + n])
    ensures k + 3 <= |s| && IsKeyword(s[k..k + 3]) ==> n == 3
    ensures n != 3 && k + 2 <= |s| && IsKeyword(s[k..k + 2]) ==> n == 2
  {
    if k + 3 <= |s| && UpperChar(s[k]) == 'A' && UpperChar(s[k + 1]) == 'N' && UpperChar(s[k + 2]) == 'D' then 3
    else
      KeywordSpelling(s, k);
      if k + 2 <= |s| && UpperChar(s[k]) == 'O' && UpperChar(s[k + 1]) == 'R' then 2
      else 0
  }

  /** The upper-cased spelling of a keyword that starts at `k`. */
  lemma KeywordSpelling(s: string, k: nat)
    requires k <= |s|
    ensures k + 3 <= |s| && IsKeyword(s[k..k + 3]) ==>
      UpperChar(s[k]) == 'A' && UpperChar(s[k + 1]) == 'N' && UpperChar(s[k + 2]) == 'D'
    ensures k + 2 <= |s| && IsKeyword(s[k..k + 2]) ==> UpperChar(s[k]) == 'O' && UpperChar(s[k + 1]) == 'R'
  {
    if k + 3 <= |s| {
      var w := s[k..k + 3];
      assert w[0] == s[k] && w[1] == s[k + 1] && w[2] == s[k + 2];
      assert UpperChar('A') == 'A' && UpperChar('N') == 'N' && UpperChar('D') == 'D';
    }
    if k + 2 <= |s| {
      var w := s[k..k + 2];
      assert w[0] == s[k] && w[1] == s[k + 1];
      assert UpperChar('O') == 'O' && UpperChar('R') == 'R';
    }
  }

  /** The first alternative, `\s+(AND|OR)\s+`, at `p`: the length matched,
      or 0. Both space runs are greedy, so a match takes every space on
      either side of the keyword. */
  function LogicalDelimiter(s: string, p: nat): (d: nat)
    requires p <= |s|
    ensures d > 0 ==> p + d <= |s| && IsSpace(s[p]) && IsSpace(s[p + d - 1])
    ensures d > 0 ==> KeywordAt(s, SpaceEnd(s, p)) > 0
    ensures d == 0 && p < |s| && IsSpace(s[p]) && KeywordAt(s, SpaceEnd(s, p)) > 0 ==>
      SpaceEnd(s, p) + KeywordAt(s, SpaceEnd(s, p)) == |s| || !IsSpace(s[SpaceEnd(s, p) + KeywordAt(s, SpaceEnd(s, p))])
  {
    if p < |s| && IsSpace(s[p]) then
      var k := SpaceEnd(s, p);
      var n := KeywordAt(s, k);
      if n > 0 && k + n < |s| && IsSpace(s[k + n]) then SpaceEnd(s, k + n) - p else 0
    else 0
  }

  /** The one-character comparator `a` at `p`, with `\s` right after it. */
  predicate Comparator1At(s: string, p: nat, a: char) {
    p + 1 < |s| && s[p] == a && IsSpace(s[p + 1])
  }

  /** The two-character comparator `ab` at `p`, with `\s` right after it. */
  predicate Comparator2At(s: string, p: nat, a: char, b: char) {
    p + 2 < |s| && s[p] == a && s[p + 1] == b && IsSpace(s[p + 2])
  }

  /** The second alternative, `(?<=\s)(<|<=|>|>=|==|!=|=)(?=\s)`, at `p`:
      the length matched, or 0. The comparators are tried in this order;
      the look-behind may see a space that an earlier match consumed. */
  function ComparatorDelimiter(s: string, p: nat): (d: nat)
    requires p <= |s|
    ensures d > 0 ==> 0 < p && IsSpace(s[p - 1]) && p + d < |s| && IsSpace(s[p + d])
    ensures d > 0 ==> IsComparatorText(s[p..p + d]) && s[p..p + d] != "!"
    ensures 0 < p && IsSpace(s[p - 1]) && p + 1 < |s| && (s[p] == '<' || s[p] == '>' || s[p] == '=') && IsSpace(s[p + 1])
      ==> d == 1
    ensures 0 < p && IsSpace(s[p - 1]) && p + 2 < |s| && IsComparatorChar(s[p]) && s[p + 1] == '=' && IsSpace(s[p + 2])
      ==> d == 2
  {
    if 0 < p && IsSpace(s[p - 1]) then
      if Comparator1At(s, p, '<') then 1
      else if Comparator2At(s, p, '<', '=') then 2
      else if Comparator1At(s, p, '>') then 1
      else if Comparator2At(s, p, '>', '=') then 2
      else if Comparator2At(s, p, '=', '=') then 2
      else if Comparator2At(s, p, '!', '=') then 2
      else if Comparator1At(s, p, '=') then 1
      else 0
    else 0
  }

  /** The length of the delimiter match at `p`, or 0 when neither
      alternative matches there. A match begins and ends with a character
      that is not a word character. */
  function DelimiterAt(s: string, p: nat): (d: nat)
    requires p <= |s|
    ensures d > 0 ==> p + d <= |s| && !IsWordChar(s[p]) && !IsWordChar(s[p + d - 1])
  {
    var a := LogicalDelimiter(s, p);
    if a > 0 then
      assert SpaceEnd(s, KeywordAt(s, SpaceEnd(s, p)) + SpaceEnd(s, p)) > SpaceEnd(s, p);
      a
    else ComparatorDelimiter(s, p)
  }

  // ---------------------------------------------------------------------
  // String.split
  // ---------------------------------------------------------------------

  /** A part of the text as a half-open index range. */
  datatype Span = Span(lo: nat, hi: nat)

  predicate ValidSpans(s: string, rs: seq<Span>) {
    forall k :: 0 <= k < |rs| ==> rs[k].lo <= rs[k].hi <= |s|
  }

  /** The parts between delimiter matches, found left to right: the current
      part began at `start`, and the search for the next match resumes at
      `p`. After a match the next part and the next search begin at its
      end. */
  function Spans(s: string, start: nat, p: nat): (rs: seq<Span>)
    requires start <= p <= |s|
    ensures |rs| > 0 && rs[0].lo == start && rs[|rs| - 1].hi == |s|
    ensures ValidSpans(s, rs)
    decreases |s| - p
  {
    if p == |s| then [Span(start, |s|)]
    else
      var d := DelimiterAt(s, p);
      if d > 0 then [Span(start, p)] + Spans(s, p + d, p + d) else Spans(s, start, p + 1)
  }

  /** The text of every span. */
  function Slices(s: string, rs: seq<Span>): (parts: seq<string>)
    requires ValidSpans(s, rs)
    ensures |parts| == |rs|
    ensures forall k :: 0 <= k < |rs| ==> parts[k] == s[rs[k].lo..rs[k].hi]
  {
    if |rs| == 0 then [] else [s[rs[0].lo..rs[0].hi]] + Slices(s, rs[1..])
  }

  /** `split` with limit 0 drops the empty strings at the end. */
  function DropTrailingEmpty(parts: seq<string>): (r: seq<string>)
    ensures r <= parts
    ensures forall k :: |r| <= k < |parts| ==> parts[k] == ""
    ensures |r| > 0 ==> r[|r| - 1] != ""
  {
    if |parts| > 0 && parts[|parts| - 1] == "" then DropTrailingEmpty(parts[..|parts| - 1]) else parts
  }

  /** `ruleString.split(...)`: the text itself when the delimiter never
      matches, otherwise the parts without the empty ones at the end. */
  function Split(s: string): seq<string> {
    var rs := Spans(s, 0, 0);
    if |rs| == 1 then [s] else DropTrailingEmpty(Slices(s, rs))
  }

  // ---------------------------------------------------------------------
  // Identifier scan
  // ---------------------------------------------------------------------

  /** `\b([a-zA-Z_][a-zA-Z0-9_]*)\b` matches at `p` exactly when an
      identifier character starts there and no word character precedes it;
      the match is then the whole word run. */
  predicate IdentStartsAt(part: string, p: nat)
    requires p < |part|
  {
    IsIdentStart(part[p]) && (p == 0 || !IsWordChar(part[p - 1]))
  }

  /** The `matcher.find()` loop from `p`: after a match the search resumes
      at its end, otherwise at the next character. */
  function IdentsFrom(part: string, p: nat): (r: set<string>)
    requires p <= |part|
    ensures forall x :: x in r ==> IsIdentifier(x)
    decreases |part| - p
  {
    if p == |part| then {}
    else if IdentStartsAt(part, p) then
      var e := WordEnd(part, p);
      {part[p..e]} + IdentsFrom(part, e)
    else IdentsFrom(part, p + 1)
  }

  function Idents(part: string): set<string> {
    IdentsFrom(part, 0)
  }

  /** The identifiers of all parts together. */
  function UnionIdents(parts: seq<string>): (r: set<string>)
    ensures forall x :: x in r ==> IsIdentifier(x)
    ensures forall k :: 0 <= k < |parts| ==> Idents(parts[k]) <= r
  {
    if |parts| == 0 then {} else Idents(parts[0]) + UnionIdents(parts[1..])
  }

  /** `extractAttributesFromRule`: the identifiers of every part, as a set. */
  function ExtractAttributes(s: string): (r: set<string>)
    ensures forall x :: x in r ==> IsIdentifier(x)
    ensures forall k :: 0 <= k < |Split(s)| ==> Idents(Split(s)[k]) <= r
  {
    UnionIdents(Split(s))
  }

  // ---------------------------------------------------------------------
  // Reference definitions
  // ---------------------------------------------------------------------

  /** `s[i..j]` is an identifier standing as a whole word: it starts with a
      letter or underscore, consists of word characters, and no word
      character touches it on either side. */
  predicate WordAt(s: string, i: nat, j: nat) {
    i < j <= |s|
    && IsIdentStart(s[i])
    && (forall m :: i <= m < j ==> IsWordChar(s[m]))
    && (i == 0 || !IsWordChar(s[i - 1]))
    && (j == |s| || !IsWordChar(s[j]))
  }

  /** `x` occurs in `s` as a whole-word identifier. */
  ghost predicate OccursAsWord(s: string, x: string) {
    exists i: nat, j: nat :: WordAt(s, i, j) && s[i..j] == x
  }

  // ---------------------------------------------------------------------
  // The identifier scan finds exactly the whole words
  // ---------------------------------------------------------------------

  /** A whole word starting at `i` ends where the word run ends. */
  lemma WordAtEnd(s: string, i: nat, j: nat)
    requires WordAt(s, i, j)
    ensures j == WordEnd(s, i)
  {
    var e := WordEnd(s, i);
    assert j < |s| ==> !IsWordChar(s[j]);
    assert e < |s| ==> !IsWordChar(s[e]);
  }

  /** The scan from `p` finds exactly the whole words that start at or
      after `p`. */
  lemma {:induction false} IdentsFromExact(part: string, p: nat, x: string)
    requires p <= |part|
    ensures x in IdentsFrom(part, p) <==> exists i: nat, j: nat :: p <= i && WordAt(part, i, j) && part[i..j] == x
    decreases |part| - p
  {
    if p < |part| {
      if IdentStartsAt(part, p) {
        var e := WordEnd(part, p);
        IdentsFromExact(part, e, x);
        assert WordAt(part, p, e);
        forall i: nat, j: nat | p < i < e && i < j
          ensures !WordAt(part, i, j)
        {
          assert IsWordChar(part[i - 1]);
        }
        if x in IdentsFrom(part, p) && x != part[p..e] {
          var i: nat, j: nat :| e <= i && WordAt(part, i, j) && part[i..j] == x;
          assert p <= i;
        }
        if exists i: nat, j: nat :: p <= i && WordAt(part, i, j) && part[i..j] == x {
          var i: nat, j: nat :| p <= i && WordAt(part, i, j) && part[i..j] == x;
          if i == p {
            WordAtEnd(part, i, j);
          } else {
            assert e <= i;
          }
        }
      } else {
        IdentsFromExact(part, p + 1, x);
        if exists i: nat, j: nat :: p <= i && WordAt(part, i, j) && part[i..j] == x {
          var i: nat, j: nat :| p <= i && WordAt(part, i, j) && part[i..j] == x;
          assert i != p;
        }
      }
    }
  }

  // ---------------------------------------------------------------------
  // Spans: the split is the leftmost sequence of delimiter matches
  // ---------------------------------------------------------------------

  /** No word character touches the span from outside, and no delimiter
      match begins inside it. */
  predicate SpanOk(s: string, r: Span) {
    Aligned(s, r) && forall m :: r.lo <= m < r.hi ==> DelimiterAt(s, m) == 0
  }

  /** No word character touches the span from outside. */
  predicate Aligned(s: string, r: Span) {
    && r.lo <= r.hi <= |s|
    && (r.lo == 0 || !IsWordChar(s[r.lo - 1]))
    && (r.hi == |s| || !IsWordChar(s[r.hi]))
  }

  /** A delimiter match begins where span `a` ends and ends where span `b`
      begins. */
  predicate Linked(s: string, a: Span, b: Span) {
    a.hi < |s| && DelimiterAt(s, a.hi) > 0 && b.lo == a.hi + DelimiterAt(s, a.hi)
  }

  /** The spans and the delimiter matches tile the text. */
  predicate Tiles(s: string, rs: seq<Span>) {
    && (forall k :: 0 <= k < |rs| ==> SpanOk(s, rs[k]))
    && (forall k :: 0 <= k < |rs| - 1 ==> Linked(s, rs[k], rs[k + 1]))
  }

  lemma TilesCons(s: string, r: Span, tl: seq<Span>)
    requires SpanOk(s, r) && Tiles(s, tl) && |tl| > 0 && Linked(s, r, tl[0])
    ensures Tiles(s, [r] + tl)
  {
    var rs := [r] + tl;
    assert forall k :: 1 <= k < |rs| ==> rs[k] == tl[k - 1];
  }

  /** The split is the leftmost sequence of matches: each span ends where a
      match begins, the next span begins where that match ends, no match
      begins inside a span, and no word character touches a span. */
  lemma {:induction false} SpansTile(s: string, start: nat, p: nat)
    requires start <= p <= |s|
    requires start == 0 || !IsWordChar(s[start - 1])
    requires forall m :: start <= m < p ==> DelimiterAt(s, m) == 0
    ensures Tiles(s, Spans(s, start, p))
    decreases |s| - p
  {
    if p == |s| {
      SpansTileEnd(s, start);
    } else if DelimiterAt(s, p) > 0 {
      var d := DelimiterAt(s, p);
      SpansTile(s, p + d, p + d);
      SpansTileMatch(s, start, p);
    } else {
      NoDelimiterExtend(s, start, p);
      SpansTile(s, start, p + 1);
      SpansStep(s, start, p);
    }
  }

  /** One step of the scan for the next match. */
  lemma SpansStep(s: string, start: nat, p: nat)
    requires start <= p < |s|
    ensures DelimiterAt(s, p) == 0 ==> Spans(s, start, p) == Spans(s, start, p + 1)
    ensures DelimiterAt(s, p) > 0 ==>
      Spans(s, start, p) == [Span(start, p)] + Spans(s, p + DelimiterAt(s, p), p + DelimiterAt(s, p))
  {
  }

  lemma NoDelimiterExtend(s: string, start: nat, p: nat)
    requires start <= p < |s|
    requires forall m :: start <= m < p ==> DelimiterAt(s, m) == 0
    requires DelimiterAt(s, p) == 0
    ensures forall m :: start <= m < p + 1 ==> DelimiterAt(s, m) == 0
  {
  }

  /** The last span runs to the end of the text. */
  lemma SpansTileEnd(s: string, start: nat)
    requires start <= |s|
    requires start == 0 || !IsWordChar(s[start - 1])
    requires forall m :: start <= m < |s| ==> DelimiterAt(s, m) == 0
    ensures Tiles(s, Spans(s, start, |s|))
  {
    var r := Span(start, |s|);
    assert Spans(s, start, |s|) == [r];
    assert SpanOk(s, r);
  }

  /** A match at `p` closes the current span and links it to the next. */
  lemma SpansTileMatch(s: string, start: nat, p: nat)
    requires start <= p < |s|
    requires start == 0 || !IsWordChar(s[start - 1])
    requires forall m :: start <= m < p ==> DelimiterAt(s, m) == 0
    requires DelimiterAt(s, p) > 0
    requires Tiles(s, Spans(s, p + DelimiterAt(s, p), p + DelimiterAt(s, p)))
    ensures Tiles(s, Spans(s, start, p))
  {
    var d := DelimiterAt(s, p);
    var r := Span(start, p);
    var tl := Spans(s, p + d, p + d);
    SpansStep(s, start, p);
    SpanBeforeMatch(s, start, p);
    TilesCons(s, r, tl);
  }

  lemma SpanBeforeMatch(s: string, start: nat, p: nat)
    requires start <= p < |s|
    requires start == 0 || !IsWordChar(s[start - 1])
    requires forall m :: start <= m < p ==> DelimiterAt(s, m) == 0
    requires !IsWordChar(s[p])
    ensures SpanOk(s, Span(start, p))
  {
  }

  /** The characters a comparator delimiter takes are not word characters. */
  lemma ComparatorNotWord(s: string, p: nat)
    requires p <= |s|
    ensures forall m :: p <= m < p + ComparatorDelimiter(s, p) ==> !IsWordChar(s[m])
  {
    var d := ComparatorDelimiter(s, p);
    if d > 0 {
      assert p + d < |s|;
      assert forall m :: p <= m < p + d ==> IsComparatorChar(s[m]);
    }
  }

  /** A delimiter match covers a whole word only when that word is AND or
      OR: the spaces and comparators it takes are not word characters. */
  lemma DelimiterCoversKeyword(s: string, p: nat, i: nat, j: nat)
    requires p <= |s| && DelimiterAt(s, p) > 0
    requires WordAt(s, i, j) && p < i < p + DelimiterAt(s, p)
    ensures IsKeyword(s[i..j])
  {
    ComparatorNotWord(s, p);
    assert IsWordChar(s[i]);
    assert LogicalDelimiter(s, p) > 0;
    var k := SpaceEnd(s, p);
    var n := KeywordAt(s, k);
    KeywordLetters(s, k);
    assert k <= i < k + n by {
      assert !IsSpace(s[i]);
    }
    WordIsRun(s, k, k + n, i, j);
  }

  /** The characters of a matched keyword are letters. */
  lemma KeywordLetters(s: string, k: nat)
    requires k <= |s|
    ensures forall m :: k <= m < k + KeywordAt(s, k) ==> IsWordChar(s[m])
  {
  }

  /** A whole word that starts inside a run of word characters bounded by
      a non-word character is that run. */
  lemma WordIsRun(s: string, lo: nat, hi: nat, i: nat, j: nat)
    requires WordAt(s, i, j) && lo <= i < hi < |s|
    requires forall m :: lo <= m < hi ==> IsWordChar(s[m])
    requires !IsWordChar(s[hi])
    ensures i == lo && j == hi
  {
    assert i == 0 || !IsWordChar(s[i - 1]);
    assert j == |s| || !IsWordChar(s[j]);
  }

  /** A match that begins before a whole word other than AND and OR ends
      before it. */
  lemma MatchBeforeWord(s: string, p: nat, i: nat, j: nat)
    requires p < |s| && DelimiterAt(s, p) > 0 && p < j
    requires WordAt(s, i, j) && !IsKeyword(s[i..j])
    ensures p + DelimiterAt(s, p) <= i
  {
    assert p < i;
    if i < p + DelimiterAt(s, p) {
      DelimiterCoversKeyword(s, p, i, j);
    }
  }

  /** The span `rs[k]` contains `s[i..j]` for some `k`. */
  predicate Covers(rs: seq<Span>, i: nat, j: nat) {
    exists k :: 0 <= k < |rs| && rs[k].lo <= i && j <= rs[k].hi
  }

  /** Every whole word other than AND and OR lies inside one span. */
  lemma {:induction false} WordCovered(s: string, start: nat, p: nat, i: nat, j: nat)
    requires start <= p <= |s| && start <= i
    requires WordAt(s, i, j) && !IsKeyword(s[i..j])
    ensures Covers(Spans(s, start, p), i, j)
    decreases |s| - p, 1
  {
    if p == |s| {
      assert Spans(s, start, p) == [Span(start, p)];
      CoversOne(Span(start, p), i, j);
    } else if DelimiterAt(s, p) == 0 {
      WordCovered(s, start, p + 1, i, j);
      SpansStep(s, start, p);
    } else if j <= p {
      WordBeforeMatch(s, start, p, i, j);
    } else {
      WordAfterMatchAt(s, start, p, i, j);
    }
  }

  /** A word that ends after the match at `p` starts after it too, so it
      lies in a later span. */
  lemma {:induction false} WordAfterMatchAt(s: string, start: nat, p: nat, i: nat, j: nat)
    requires start <= p < |s| && DelimiterAt(s, p) > 0 && p < j
    requires WordAt(s, i, j) && !IsKeyword(s[i..j])
    ensures Covers(Spans(s, start, p), i, j)
    decreases |s| - p, 0
  {
    var d := DelimiterAt(s, p);
    MatchBeforeWord(s, p, i, j);
    WordCovered(s, p + d, p + d, i, j);
    WordAfterMatch(s, start, p, i, j);
  }

  /** A word that ends before the match at `p` lies in the span it closes. */
  lemma WordBeforeMatch(s: string, start: nat, p: nat, i: nat, j: nat)
    requires start <= p < |s| && DelimiterAt(s, p) > 0
    requires start <= i && j <= p
    ensures Covers(Spans(s, start, p), i, j)
  {
    SpansStep(s, start, p);
    CoversHead(Span(start, p), Spans(s, p + DelimiterAt(s, p), p + DelimiterAt(s, p)), i, j);
  }

  /** A word covered after the match at `p` is covered from `start`. */
  lemma WordAfterMatch(s: string, start: nat, p: nat, i: nat, j: nat)
    requires start <= p < |s| && DelimiterAt(s, p) > 0
    requires Covers(Spans(s, p + DelimiterAt(s, p), p + DelimiterAt(s, p)), i, j)
    ensures Covers(Spans(s, start, p), i, j)
  {
    SpansStep(s, start, p);
    CoversCons(Span(start, p), Spans(s, p + DelimiterAt(s, p), p + DelimiterAt(s, p)), i, j);
  }

  lemma CoversOne(r: Span, i: nat, j: nat)
    requires r.lo <= i && j <= r.hi
    ensures Covers([r], i, j)
  {
    assert [r][0] == r;
  }

  lemma CoversHead(r: Span, tl: seq<Span>, i: nat, j: nat)
    requires r.lo <= i && j <= r.hi
    ensures Covers([r] + tl, i, j)
  {
    assert ([r] + tl)[0] == r;
  }

  lemma CoversCons(r: Span, tl: seq<Span>, i: nat, j: nat)
    requires Covers(tl, i, j)
    ensures Covers([r] + tl, i, j)
  {
    var k :| 0 <= k < |tl| && tl[k].lo <= i && j <= tl[k].hi;
    assert ([r] + tl)[k + 1] == tl[k];
  }

  /** Inside an aligned span, whole words of the span are whole words of
      the text and the other way round. */
  lemma WordInSpan(s: string, r: Span, i: nat, j: nat)
    requires Aligned(s, r) && r.lo <= i <= j <= r.hi
    ensures WordAt(s[r.lo..r.hi], i - r.lo, j - r.lo) <==> WordAt(s, i, j)
    ensures s[r.lo..r.hi][i - r.lo..j - r.lo] == s[i..j]
  {
    var t := s[r.lo..r.hi];
    assert forall m :: r.lo <= m < r.hi ==> t[m - r.lo] == s[m];
  }

  // ---------------------------------------------------------------------
  // The split as a union over spans
  // ---------------------------------------------------------------------

  lemma {:induction false} UnionMember(parts: seq<string>, x: string)
    ensures x in UnionIdents(parts) <==> exists k :: 0 <= k < |parts| && x in Idents(parts[k])
  {
    if |parts| > 0 {
      UnionMember(parts[1..], x);
      assert forall k :: 1 <= k < |parts| ==> parts[1..][k - 1] == parts[k];
    }
  }

  /** Some span holds `x` among its identifiers. */
  predicate InSomeSpan(s: string, rs: seq<Span>, x: string)
    requires ValidSpans(s, rs)
  {
    exists k :: 0 <= k < |rs| && x in Idents(s[rs[k].lo..rs[k].hi])
  }

  /** Dropping empty parts loses no identifier. */
  lemma DropKeepsIdents(parts: seq<string>, x: string)
    ensures x in UnionIdents(DropTrailingEmpty(parts)) <==> x in UnionIdents(parts)
  {
    var kept := DropTrailingEmpty(parts);
    UnionMember(kept, x);
    UnionMember(parts, x);
    assert Idents("") == {};
    if x in UnionIdents(parts) {
      var k :| 0 <= k < |parts| && x in Idents(parts[k]);
      assert k < |kept| && kept[k] == parts[k];
    }
  }

  /** With more than one span, the parts are the texts of the spans. */
  lemma SlicesMember(s: string, rs: seq<Span>, x: string)
    requires ValidSpans(s, rs)
    ensures x in UnionIdents(DropTrailingEmpty(Slices(s, rs))) <==> InSomeSpan(s, rs, x)
  {
    var parts := Slices(s, rs);
    DropKeepsIdents(parts, x);
    UnionMember(parts, x);
  }

  /** With one span, the only part is the whole text. */
  lemma WholeMember(s: string, rs: seq<Span>, x: string)
    requires |rs| == 1 && rs[0] == Span(0, |s|)
    ensures ValidSpans(s, rs)
    ensures x in UnionIdents([s]) <==> InSomeSpan(s, rs, x)
  {
    assert s[rs[0].lo..rs[0].hi] == s;
    UnionMember([s], x);
    assert [s][0] == s;
  }

  /** The identifiers collected from the split are those of the spans. */
  lemma SplitMember(s: string, x: string)
    ensures x in ExtractAttributes(s) <==> InSomeSpan(s, Spans(s, 0, 0), x)
  {
    var rs := Spans(s, 0, 0);
    if |rs| == 1 {
      WholeMember(s, rs, x);
    } else {
      SlicesMember(s, rs, x);
    }
  }

  // ---------------------------------------------------------------------
  // Main theorem
  // ---------------------------------------------------------------------

  /** An identifier of a tiling span is a whole word of the text. */
  lemma SpanIdentSound(s: string, rs: seq<Span>, x: string)
    requires ValidSpans(s, rs) && Tiles(s, rs) && InSomeSpan(s, rs, x)
    ensures IsIdentifier(x) && OccursAsWord(s, x)
  {
    var k :| 0 <= k < |rs| && x in Idents(s[rs[k].lo..rs[k].hi]);
    assert SpanOk(s, rs[k]);
    AlignedIdentSound(s, rs[k], x);
  }

  /** An identifier of an aligned span is a whole word of the text. */
  lemma AlignedIdentSound(s: string, r: Span, x: string)
    requires Aligned(s, r) && x in Idents(s[r.lo..r.hi])
    ensures IsIdentifier(x) && OccursAsWord(s, x)
  {
    var t := s[r.lo..r.hi];
    IdentsFromExact(t, 0, x);
    var i: nat, j: nat :| WordAt(t, i, j) && t[i..j] == x;
    WordInSpan(s, r, r.lo + i, r.lo + j);
    assert WordAt(s, r.lo + i, r.lo + j) && s[r.lo + i..r.lo + j] == x;
  }

  /** A whole word of the text inside a tiling span is an identifier of
      that span. */
  lemma SpanIdentComplete(s: string, rs: seq<Span>, i: nat, j: nat)
    requires ValidSpans(s, rs) && Tiles(s, rs) && Covers(rs, i, j) && WordAt(s, i, j)
    ensures InSomeSpan(s, rs, s[i..j])
  {
    var k :| 0 <= k < |rs| && rs[k].lo <= i && j <= rs[k].hi;
    assert SpanOk(s, rs[k]);
    AlignedIdentComplete(s, rs[k], i, j);
  }

  /** A whole word of the text inside an aligned span is an identifier of
      that span. */
  lemma AlignedIdentComplete(s: string, r: Span, i: nat, j: nat)
    requires Aligned(s, r) && r.lo <= i && j <= r.hi && WordAt(s, i, j)
    ensures s[i..j] in Idents(s[r.lo..r.hi])
  {
    var t := s[r.lo..r.hi];
    WordInSpan(s, r, i, j);
    IdentsFromExact(t, 0, s[i..j]);
    assert WordAt(t, i - r.lo, j - r.lo);
  }

  /** Every attribute reported is an identifier standing as a whole word
      in the rule text. */
  lemma ExtractSound(s: string, x: string)
    requires x in ExtractAttributes(s)
    ensures IsIdentifier(x) && OccursAsWord(s, x)
  {
    SplitMember(s, x);
    SpansTile(s, 0, 0);
    SpanIdentSound(s, Spans(s, 0, 0), x);
  }

  /** Every whole-word identifier of the rule text other than AND and OR
      is reported. */
  lemma ExtractComplete(s: string, x: string)
    requires OccursAsWord(s, x) && !IsKeyword(x)
    ensures x in ExtractAttributes(s)
  {
    var i: nat, j: nat :| WordAt(s, i, j) && s[i..j] == x;
    WordCovered(s, 0, 0, i, j);
    SpansTile(s, 0, 0);
    SpanIdentComplete(s, Spans(s, 0, 0), i, j);
    SplitMember(s, x);
  }

  /** The attributes of a rule are exactly its whole-word identifiers, up
      to the keywords AND and OR. */
  lemma ExtractExact(s: string, x: string)
    requires !IsKeyword(x)
    ensures x in ExtractAttributes(s) <==> IsIdentifier(x) && OccursAsWord(s, x)
  {
    if x in ExtractAttributes(s) {
      ExtractSound(s, x);
    }
    if OccursAsWord(s, x) {
      ExtractComplete(s, x);
    }
  }

  // ---------------------------------------------------------------------
  // Examples
  // ---------------------------------------------------------------------

  /** The operator between two conditions is a delimiter, so it is not
      reported. */
  lemma OperatorNotReported()
    ensures ExtractAttributes("a AND b") == {"a", "b"}
  {
    ExampleSplit();
    ExtractBySplit("a AND b", ["a", "b"]);
    ExampleUnion();
  }

  lemma ExtractBySplit(s: string, parts: seq<string>)
    requires Split(s) == parts
    ensures ExtractAttributes(s) == UnionIdents(parts)
  {
  }

  lemma ExampleUnion()
    ensures UnionIdents(["a", "b"]) == {"a", "b"}
  {
    LetterIdents('a');
    LetterIdents('b');
    assert UnionIdents(["a", "b"]) == Idents("a") + UnionIdents(["b"]) by {
      assert ["a", "b"][1..] == ["b"];
    }
    assert UnionIdents(["b"]) == Idents("b") by {
      assert ["b"][1..] == [];
    }
  }

  /** The operator and the spaces around it are the only match. */
  lemma ExampleSplit()
    ensures Split("a AND b") == ["a", "b"]
  {
    var s := "a AND b";
    var rs := [Span(0, 1), Span(6, 7)];
    ExampleSpans();
    SplitBySpans(s, rs);
    ExampleSlices();
    assert DropTrailingEmpty(["a", "b"]) == ["a", "b"];
  }

  lemma ExampleSlices()
    ensures Slices("a AND b", [Span(0, 1), Span(6, 7)]) == ["a", "b"]
  {
    var s := "a AND b";
    var rs := [Span(0, 1), Span(6, 7)];
    assert s[0..1] == "a" && s[6..7] == "b";
    assert Slices(s, rs)[0] == "a" && Slices(s, rs)[1] == "b";
  }

  /** When the delimiter matches, the split is the text of the spans. */
  lemma SplitBySpans(s: string, rs: seq<Span>)
    requires Spans(s, 0, 0) == rs && |rs| > 1
    ensures ValidSpans(s, rs) && Split(s) == DropTrailingEmpty(Slices(s, rs))
  {
  }

  lemma ExampleSpans()
    ensures Spans("a AND b", 0, 0) == [Span(0, 1), Span(6, 7)]
  {
    var s := "a AND b";
    assert DelimiterAt(s, 0) == 0;
    assert SpaceEnd(s, 1) == 2 && KeywordAt(s, 2) == 3 && SpaceEnd(s, 5) == 6;
    assert DelimiterAt(s, 1) == 5;
    assert DelimiterAt(s, 6) == 0;
    assert Spans(s, 6, 6) == [Span(6, 7)];
  }

  /** A one-letter part has that letter as its only identifier. */
  lemma LetterIdents(c: char)
    requires IsIdentStart(c)
    ensures Idents([c]) == {[c]}
  {
    assert IdentStartsAt([c], 0);
    assert WordEnd([c], 0) == 1;
    assert [c][0..1] == [c];
    assert IdentsFrom([c], 1) == {};
  }

  /** A quoted string value stands as a whole word too, so it is reported
      as an attribute. */
  lemma QuotedValueReported()
    ensures "Sales" in ExtractAttributes("dept = 'Sales'")
  {
    var s := "dept = 'Sales'";
    assert WordAt(s, 8, 13) && s[8..13] == "Sales";
    assert !IsKeyword("Sales");
    ExtractComplete(s, "Sales");
  }

  /** Spaces on both sides do not always remove an operator: after the
      first AND has been split off together with the space behind it, the
      second AND has no space in front of it and stays in the text. */
  lemma AdjacentOperatorReported()
    ensures "AND" in ExtractAttributes("a AND AND b")
  {
    var s := "a AND AND b";
    AdjacentSpans(s);
    var rs := Spans(s, 0, 0);
    AdjacentPart(s);
    AndWordIdent(s[6..11]);
    assert InSomeSpan(s, rs, "AND");
    SplitMember(s, "AND");
  }

  lemma AdjacentPart(s: string)
    requires s == "a AND AND b"
    ensures s[6..11] == "AND b"
  {
  }

  lemma AdjacentSpans(s: string)
    requires s == "a AND AND b"
    ensures Spans(s, 0, 0) == [Span(0, 1), Span(6, 11)]
  {
    AdjacentFirstDelimiter(s);
    AdjacentNoDelimiter(s);
    SpansToEnd(s, 6, 6);
    assert Spans(s, 0, 0) == Spans(s, 0, 1) == [Span(0, 1)] + Spans(s, 6, 6);
  }

  /** With no delimiter from `p` on, the span that starts at `start` runs to
      the end of the text. */
  lemma {:induction false} SpansToEnd(s: string, start: nat, p: nat)
    requires start <= p <= |s|
    requires forall q :: p <= q < |s| ==> DelimiterAt(s, q) == 0
    ensures Spans(s, start, p) == [Span(start, |s|)]
    decreases |s| - p
  {
    if p < |s| {
      SpansToEnd(s, start, p + 1);
    }
  }

  lemma AdjacentFirstDelimiter(s: string)
    requires s == "a AND AND b"
    ensures DelimiterAt(s, 0) == 0 && DelimiterAt(s, 1) == 5
  {
    assert SpaceEnd(s, 1) == 2 && KeywordAt(s, 2) == 3 && SpaceEnd(s, 5) == 6;
  }

  lemma AdjacentNoDelimiter(s: string)
    requires s == "a AND AND b"
    ensures forall p :: 6 <= p <= 10 ==> DelimiterAt(s, p) == 0
  {
    assert SpaceEnd(s, 9) == 10 && KeywordAt(s, 10) == 0;
  }

  lemma AndWordIdent(part: string)
    requires part == "AND b"
    ensures "AND" in Idents(part)
  {
    assert IdentStartsAt(part, 0);
    assert WordEnd(part, 3) == 3 && WordEnd(part, 0) == 3;
    assert part[0..3] == "AND";
  }
}
