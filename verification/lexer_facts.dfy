/** What the tokenizer does with particular inputs: keywords take priority
    over words, comparator runs split greedily, and characters no
    alternative matches are dropped. */
module LexerFacts {
  import opened Results
  import opened Tokens
  import opened Lexer

  /** At a position where AND or OR matches ignoring case, the tokenizer
      emits the upper-cased operator and resumes right after it, even in the
      middle of a word; AND is tried before OR. */
  lemma KeywordFirst(s: string, kw: string)
    requires
      || (kw == "AND" && StartsWithIgnoreCase(s, "AND"))
      || (kw == "OR" && StartsWithIgnoreCase(s, "OR") && !StartsWithIgnoreCase(s, "AND"))
    ensures |Tokenize(s)| > 0 && Tokenize(s)[0] == Token(Operator, kw)
    ensures Tokenize(s)[1..] == Tokenize(s[|kw|..])
  {
    var v := s[..|kw|];
    assert UpperChar(s[0]) == UpperChar(kw[0]) by { assert v[0] == s[0]; }
    assert MatchLength(s) == |kw|;
    assert IsKeyword(v);
    UpperOfKeyword(v, kw);
    assert CreateToken(v) == Success(Token(Operator, kw));
  }

  /** A comparator character followed by `=` is one two-character token. */
  lemma ComparatorGreedy(s: string)
    requires |s| >= 2 && IsComparatorChar(s[0]) && s[1] == '='
    ensures |Tokenize(s)| > 0 && Tokenize(s)[0] == Token(Comparator, s[..2])
    ensures Tokenize(s)[1..] == Tokenize(s[2..])
  {
    assert MatchLength(s) == 2 by {
      assert UpperChar(s[0]) == s[0];
    }
    var v := s[..2];
    assert CreateToken(v) == Success(Token(Comparator, v)) by {
      assert !IsKeyword(v) by { assert UpperChar(v[0]) == v[0]; }
      assert IsComparatorText(v);
    }
    TokenizeMatch(s, 2, Token(Comparator, v));
  }

  /** A character that starts no alternative produces no token. */
  lemma SkipUnmatched(c: char, s: string)
    requires c != '(' && c != ')' && c != '\'' && c != '"'
    requires !IsComparatorChar(c) && !IsWordChar(c)
    ensures Tokenize([c] + s) == Tokenize(s)
  {
    var t := [c] + s;
    assert !StartsWithIgnoreCase(t, "AND") && !StartsWithIgnoreCase(t, "OR") by {
      assert UpperChar(t[0]) == c;
    }
    assert t[1..] == s;
  }

  /** A quote that is never closed is dropped, and the text after it is
      tokenized as if the quote were not there. */
  lemma SkipUnterminatedQuote(q: char, s: string)
    requires q == '\'' || q == '"'
    requires q !in s
    ensures Tokenize([q] + s) == Tokenize(s)
  {
    var t := [q] + s;
    assert t[1..] == s;
    assert MatchLength(t) == 0 by {
      assert !StartsWithIgnoreCase(t, "AND") && !StartsWithIgnoreCase(t, "OR") by {
        assert UpperChar(t[0]) == q;
      }
      assert QuotedLength(t) == 0;
    }
  }

  /** A word that does not start with a keyword is one attribute token. */
  lemma WordToken(w: string)
    requires IsWord(w) && !StartsWithKeyword(w)
    ensures Tokenize(w) == [Token(Attribute, w)]
  {
    assert MatchLength(w) == |w| by {
      assert WordRun(w) == |w|;
    }
    assert w[..|w|] == w;
    assert !IsKeyword(w) by {
      if |w| == 3 { assert w[..3] == w; }
      if |w| == 2 { assert w[..2] == w; }
    }
    assert CreateToken(w) == Success(Token(Attribute, w)) by {
      assert !IsComparatorText(w) && !IsQuoted(w, '\'') && !IsQuoted(w, '"');
    }
    assert w[|w|..] == [];
  }

  /** A literal in single or in double quotes is one value token that
      carries exactly the text between its quotes, whatever follows it. */
  lemma QuotedValue(q: char, w: string, rest: string)
    requires IsQuote(q) && q !in w
    ensures Tokenize([q] + w + [q] + rest) == [Token(Value, w)] + Tokenize(rest)
  {
    var v := [q] + w + [q];
    var s := v + rest;
    QuotedLexeme(q, w, rest);
    assert s[..|w| + 2] == v && s[|w| + 2..] == rest;
    assert CreateToken(v) == Success(Token(Value, w)) by {
      assert UpperChar(q) == q;
      assert !IsKeyword(v) && !IsComparatorText(v);
      assert IsQuoted(v, q) && v[1..|v| - 1] == w;
    }
    TokenizeMatch(s, |w| + 2, Token(Value, w));
  }

  /** The quoted alternative takes the literal up to its closing quote. */
  lemma QuotedLexeme(q: char, w: string, rest: string)
    requires IsQuote(q) && q !in w
    ensures MatchLength([q] + w + [q] + rest) == |w| + 2
  {
    var s := [q] + w + [q] + rest;
    var t := s[1..];
    assert t[|w|] == q;
    assert forall i :: 0 <= i < |w| ==> t[i] == w[i];
    var k := IndexOf(t, q);
    assert k <= |w| && t[k] == q;
    assert k == |w|;
    assert UpperChar(q) == q;
    assert !StartsWithIgnoreCase(s, "AND") && !StartsWithIgnoreCase(s, "OR") by {
      assert |s| >= 3 ==> s[..3][0] == q;
      assert s[..2][0] == q;
    }
  }

  /** A word that begins with a keyword is split: `order` is the operator OR
      followed by the attribute `der`. */
  lemma OrderSplits()
    ensures Tokenize("order") == [Token(Operator, "OR"), Token(Attribute, "der")]
  {
    var s := "order";
    assert !StartsWithIgnoreCase(s, "AND") by { assert UpperChar(s[0]) != 'A'; }
    assert StartsWithIgnoreCase(s, "OR") by { assert s[..2] == "or"; }
    assert s[2..] == "der";
    assert !StartsWithKeyword("der") by {
      assert UpperChar("der"[0]) != 'A' && UpperChar("der"[0]) != 'O';
    }
    KeywordThenWord(s, "OR", "der");
  }

  /** A keyword followed directly by a word that does not itself start
      with a keyword gives the operator and then one attribute. */
  lemma KeywordThenWord(s: string, kw: string, w: string)
    requires
      || (kw == "AND" && StartsWithIgnoreCase(s, "AND"))
      || (kw == "OR" && StartsWithIgnoreCase(s, "OR") && !StartsWithIgnoreCase(s, "AND"))
    requires s[|kw|..] == w && IsWord(w) && !StartsWithKeyword(w)
    ensures Tokenize(s) == [Token(Operator, kw), Token(Attribute, w)]
  {
    KeywordFirst(s, kw);
    WordToken(w);
    assert Tokenize(s) == [Tokenize(s)[0]] + Tokenize(s)[1..];
  }

  /** `===` is the comparator `==` followed by the comparator `=`. */
  lemma TripleEqualsSplits()
    ensures Tokenize("===") == [Token(Comparator, "=="), Token(Comparator, "=")]
  {
    var s := "===";
    ComparatorGreedy(s);
    assert s[..2] == "==";
    var r := s[2..];
    assert r == "=";
    assert Tokenize(r) == [Token(Comparator, "=")] by {
      assert !StartsWithIgnoreCase(r, "AND") && !StartsWithIgnoreCase(r, "OR");
      assert MatchLength(r) == 1;
      assert r[..1] == r;
      assert !IsKeyword(r) by { assert UpperChar(r[0]) == r[0]; }
      assert CreateToken(r) == Success(Token(Comparator, "="));
      assert r[1..] == [];
    }
    assert Tokenize(s) == [Tokenize(s)[0]] + Tokenize(s)[1..];
  }

  /** A bare number is an attribute token, not a value. */
  lemma NumberIsAttribute()
    ensures Tokenize("18") == [Token(Attribute, "18")]
  {
    var s := "18";
    assert !StartsWithKeyword(s) by {
      assert UpperChar(s[0]) == s[0];
    }
    WordToken(s);
  }

  /** Keywords are recognised in any case and emitted upper-cased. */
  lemma LowerCaseKeyword()
    ensures Tokenize("and") == [Token(Operator, "AND")]
  {
    var s := "and";
    assert StartsWithIgnoreCase(s, "AND") by { assert s[..3] == s; }
    KeywordFirst(s, "AND");
    assert s[3..] == [];
    assert Tokenize(s) == [Tokenize(s)[0]] + Tokenize(s)[1..];
  }

  // ---------------------------------------------------------------------
  // Tokenizing a concatenation
  // ---------------------------------------------------------------------

  predicate IsQuote(c: char) {
    c == '\'' || c == '"'
  }

  /** A character that no lexeme can continue with: not a word character
      (so neither a word nor a keyword grows into it) and not `=` (so no
      comparator does). */
  predicate Breaks(c: char) {
    !IsWordChar(c) && c != '='
  }

  /** Every quote the tokenizer skips in `s`, because it is never closed
      there, is absent from `t`, so that `t` cannot close it. */
  predicate QuotesClosedBefore(s: string, t: string)
    decreases |s|
  {
    if |s| == 0 then true
    else
      var n := MatchLength(s);
      if n == 0 then (IsQuote(s[0]) ==> s[0] !in t) && QuotesClosedBefore(s[1..], t)
      else QuotesClosedBefore(s[n..], t)
  }

  /** The tokenizer skips no quote in `s`: every quoted literal it meets
      is closed within `s`. */
  predicate Closed(s: string)
    decreases |s|
  {
    if |s| == 0 then true
    else
      var n := MatchLength(s);
      if n == 0 then !IsQuote(s[0]) && Closed(s[1..])
      else Closed(s[n..])
  }

  /** A text without quotes leaves none open. */
  lemma {:induction false} QuoteFreeClosed(s: string)
    requires forall i :: 0 <= i < |s| ==> !IsQuote(s[i])
    ensures Closed(s)
    decreases |s|
  {
    if |s| > 0 {
      var n := MatchLength(s);
      var k := if n == 0 then 1 else n;
      assert forall i :: 0 <= i < |s[k..]| ==> s[k..][i] == s[k + i];
      QuoteFreeClosed(s[k..]);
    }
  }

  lemma {:induction false} ClosedBefore(s: string, t: string)
    requires Closed(s)
    ensures QuotesClosedBefore(s, t)
    decreases |s|
  {
    if |s| > 0 {
      var n := MatchLength(s);
      if n == 0 {
        ClosedBefore(s[1..], t);
      } else {
        ClosedBefore(s[n..], t);
      }
    }
  }

  /** A blank contains no quote, so it closes none. */
  lemma {:induction false} QuotesClosedBeforeBlank(s: string)
    ensures QuotesClosedBefore(s, " ")
    decreases |s|
  {
    if |s| > 0 {
      var n := MatchLength(s);
      if n == 0 {
        QuotesClosedBeforeBlank(s[1..]);
      } else {
        QuotesClosedBeforeBlank(s[n..]);
      }
    }
  }

  lemma WordRunAppend(s: string, t: string)
    requires |t| > 0 ==> !IsWordChar(t[0])
    ensures WordRun(s + t) == WordRun(s)
  {
    var n := WordRun(s);
    assert forall i :: 0 <= i < n ==> (s + t)[i] == s[i];
    assert n == |s + t| || !IsWordChar((s + t)[n]) by {
      if n < |s| {
        assert (s + t)[n] == s[n];
      } else if |t| > 0 {
        assert (s + t)[n] == t[0];
      }
    }
  }

  lemma IndexOfAppend(a: string, b: string, q: char)
    requires IndexOf(a, q) < |a| || q !in b
    ensures IndexOf(a + b, q) == (if IndexOf(a, q) < |a| then IndexOf(a, q) else |a + b|)
  {
    var k := IndexOf(a, q);
    if k < |a| {
      assert (a + b)[k] == q;
      assert forall i :: 0 <= i < k ==> (a + b)[i] == a[i];
    } else {
      forall i | 0 <= i < |a + b|
        ensures (a + b)[i] != q
      {
        if i < |a| {
          assert (a + b)[i] == a[i];
        } else {
          assert (a + b)[i] == b[i - |a|];
        }
      }
    }
  }

  /** A quoted literal opening `s` is unaffected by what follows, unless it
      is not closed in `s`. */
  lemma QuotedLengthAppend(s: string, t: string)
    requires |s| > 0 && IsQuote(s[0])
    requires QuotedLength(s) == 0 ==> s[0] !in t
    ensures QuotedLength(s + t) == QuotedLength(s)
  {
    assert (s + t)[1..] == s[1..] + t;
    IndexOfAppend(s[1..], t, s[0]);
  }

  /** The keyword `kw` is found at the start of `s + t` exactly when it is
      found at the start of `s`. */
  lemma KeywordAppend(s: string, t: string, kw: string)
    requires kw == "AND" || kw == "OR"
    requires |s| > 0 && (|t| > 0 ==> !IsWordChar(t[0]))
    ensures StartsWithIgnoreCase(s + t, kw) <==> StartsWithIgnoreCase(s, kw)
  {
    if |kw| <= |s| {
      assert (s + t)[..|kw|] == s[..|kw|];
    } else if |kw| <= |s + t| {
      assert (s + t)[|s|] == t[0];
      assert UpperChar(t[0]) != UpperChar(kw[|s|]);
      assert (s + t)[..|kw|][|s|] == t[0];
    }
  }

  /** The lexeme opening `s` is the same when `t` follows. */
  lemma MatchLengthAppend(s: string, t: string)
    requires |s| > 0 && (|t| > 0 ==> Breaks(t[0]))
    requires MatchLength(s) == 0 && IsQuote(s[0]) ==> s[0] !in t
    ensures MatchLength(s + t) == MatchLength(s)
  {
    var u := s + t;
    assert u[0] == s[0];
    KeywordAppend(s, t, "AND");
    KeywordAppend(s, t, "OR");
    if IsComparatorChar(s[0]) && |s| == 1 && |t| > 0 {
      assert u[1] == t[0];
    } else if IsComparatorChar(s[0]) && |s| > 1 {
      assert u[1] == s[1];
    }
    if IsWordChar(s[0]) {
      WordRunAppend(s, t);
    }
    if IsQuote(s[0]) {
      QuotedLengthAppend(s, t);
    }
  }

  /** Tokenizing `s + t` is tokenizing `s` and then `t`, when `t` starts
      with a character no lexeme continues with and closes no quote that
      `s` left open. */
  lemma {:induction false} TokenizeAppend(s: string, t: string)
    requires QuotesClosedBefore(s, t)
    requires |t| > 0 ==> Breaks(t[0])
    ensures Tokenize(s + t) == Tokenize(s) + Tokenize(t)
    decreases |s|
  {
    if |s| == 0 {
      assert s + t == t;
    } else {
      var n := MatchLength(s);
      MatchLengthAppend(s, t);
      if n == 0 {
        TokenizeAppend(s[1..], t);
        SkipAppend(s, t);
      } else {
        TokenizeAppend(s[n..], t);
        MatchAppend(s, t, n);
      }
    }
  }

  /** A skipped first character is skipped in `s + t` as well. */
  lemma SkipAppend(s: string, t: string)
    requires |s| > 0 && MatchLength(s) == 0 && MatchLength(s + t) == 0
    requires Tokenize(s[1..] + t) == Tokenize(s[1..]) + Tokenize(t)
    ensures Tokenize(s + t) == Tokenize(s) + Tokenize(t)
  {
    SkipBoth(s, t);
  }

  lemma SkipBoth(s: string, t: string)
    requires |s| > 0 && MatchLength(s) == 0 && MatchLength(s + t) == 0
    ensures Tokenize(s + t) == Tokenize(s[1..] + t)
    ensures Tokenize(s) == Tokenize(s[1..])
  {
    var u := s + t;
    assert u[1..] == s[1..] + t;
    TokenizeSkip(u);
    TokenizeSkip(s);
  }

  /** A lexeme opening `s` opens `s + t` as well. */
  lemma MatchAppend(s: string, t: string, n: nat)
    requires 0 < n <= |s| && MatchLength(s) == n && MatchLength(s + t) == n
    requires Tokenize(s[n..] + t) == Tokenize(s[n..]) + Tokenize(t)
    ensures Tokenize(s + t) == Tokenize(s) + Tokenize(t)
  {
    var tok := MatchBoth(s, t, n);
    ConsJoin(Tokenize(s + t), Tokenize(s[n..] + t), Tokenize(s), Tokenize(s[n..]), Tokenize(t), tok);
  }

  lemma ConsJoin<T>(x: seq<T>, y: seq<T>, z: seq<T>, w: seq<T>, b: seq<T>, h: T)
    requires x == [h] + y && y == w + b && z == [h] + w
    ensures x == z + b
  {
    assert [h] + (w + b) == [h] + w + b;
  }

  lemma MatchBoth(s: string, t: string, n: nat) returns (tok: Token)
    requires 0 < n <= |s| && MatchLength(s) == n && MatchLength(s + t) == n
    ensures Tokenize(s + t) == [tok] + Tokenize(s[n..] + t)
    ensures Tokenize(s) == [tok] + Tokenize(s[n..])
  {
    LexemeClassified(s);
    tok := CreateToken(s[..n]).value;
    var u := s + t;
    assert u[..n] == s[..n];
    assert u[n..] == s[n..] + t;
    TokenizeMatch(u, n, tok);
    TokenizeMatch(s, n, tok);
  }

  /** A blank at the end of a text adds no token. */
  lemma TokenizeTrailingBlank(s: string)
    ensures Tokenize(s + " ") == Tokenize(s)
  {
    QuotesClosedBeforeBlank(s);
    TokenizeAppend(s, " ");
    assert Tokenize(" ") == [] by {
      assert " "[1..] == [];
    }
  }

  /** A parenthesis is a token of its own. */
  lemma TokenizeParenthesis(c: char, x: string)
    requires c == '(' || c == ')'
    ensures Tokenize([c] + x) == [Token(Parenthesis, [c])] + Tokenize(x)
  {
    var t := [c] + x;
    assert t[..1] == [c];
    assert t[1..] == x;
    assert !IsKeyword([c]) by { assert UpperChar(c) == c; }
  }
}
