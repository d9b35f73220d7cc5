/** The tokenizer of `Ruleparser`: a `Matcher.find()` loop over the
    case-insensitive pattern
      \s*( \( | \) | AND | OR | [><=!]=? | \w+ | '[^']*' | "[^"]*" )\s*
    followed by `createToken` on each match.

    `find()` reports the leftmost position where some alternative matches.
    No alternative can start with whitespace, so this is the same as trying
    the alternatives, in order, at each position from left to right and
    skipping a position where none matches. The surrounding `\s*` and the
    `trim()` of the group change nothing: every lexeme starts and ends with a
    non-blank character. */
module Lexer {
  import opened Results
  import opened Tokens

  /** Length of the leading run of word characters (`\w+`, greedy). */
  function WordRun(s: string): (n: nat)
    ensures n <= |s|
    ensures forall i :: 0 <= i < n ==> IsWordChar(s[i])
    ensures n < |s| ==> !IsWordChar(s[n])
  {
    if |s| > 0 && IsWordChar(s[0]) then 1 + WordRun(s[1..]) else 0
  }

  /** Index of the first `q` in `s`, or `|s|` when there is none. */
  function IndexOf(s: string, q: char): (k: nat)
    ensures k <= |s|
    ensures forall i :: 0 <= i < k ==> s[i] != q
    ensures k < |s| ==> s[k] == q
  {
    if |s| == 0 || s[0] == q then 0 else 1 + IndexOf(s[1..], q)
  }

  /** Length of the literal `q[^q]*q` opening `s` with the quote `q == s[0]`;
      0 when the closing quote is missing. */
  function QuotedLength(s: string): (n: nat)
    requires |s| > 0
    ensures n == 0 || (2 <= n <= |s| && IsQuoted(s[..n], s[0]))
    ensures n == 0 <==> s[0] !in s[1..]
  {
    var k := IndexOf(s[1..], s[0]);
    if k < |s| - 1 then
      assert s[..k + 2][1..k + 1] == s[1..][..k];
      k + 2
    else
      0
  }

  /** Length of the lexeme (group 1 of the pattern) that matches at the
      start of `s`, the alternatives tried in the pattern's order; 0 when
      none matches. */
  function MatchLength(s: string): (n: nat)
    ensures n <= |s|
    ensures |s| > 0 && IsSpace(s[0]) ==> n == 0
  {
    if |s| == 0 then 0
    else if s[0] == '(' || s[0] == ')' then 1
    else if StartsWithIgnoreCase(s, "AND") then 3
    else if StartsWithIgnoreCase(s, "OR") then 2
    else if IsComparatorChar(s[0]) then (if |s| > 1 && s[1] == '=' then 2 else 1)
    else if IsWordChar(s[0]) then WordRun(s)
    else if s[0] == '\'' || s[0] == '"' then QuotedLength(s)
    else 0
  }

  /** `createToken`: classify one lexeme. */
  function CreateToken(v: string): (r: Result<Token, ParseError>)
    ensures r.Success? ==> ValidToken(r.value) && r.value.kind != Logical
    ensures r.Failure? ==> r.error == UnknownToken(v)
    ensures IsQuoted(v, '\'') || IsQuoted(v, '"') ==> r == Success(Token(Value, v[1..|v| - 1]))
  {
    if IsKeyword(v) then
      UpperOfKeyword(v, if EqualsIgnoreCase(v, "AND") then "AND" else "OR");
      Success(Token(Operator, ToUpper(v)))
    else if v == "(" || v == ")" then
      Success(Token(Parenthesis, v))
    else if IsComparatorText(v) then
      Success(Token(Comparator, v))
    else if IsQuoted(v, '\'') || IsQuoted(v, '"') then
      Success(Token(Value, v[1..|v| - 1]))
    else if IsWord(v) then
      Success(Token(Attribute, v))
    else
      Failure(UnknownToken(v))
  }

  /** Every lexeme the pattern can match is classified by `createToken`
      (its "Unknown token" branch is unreachable), and the token it yields
      satisfies the tokenizer's invariant. */
  lemma LexemeClassified(s: string)
    requires MatchLength(s) > 0
    ensures CreateToken(s[..MatchLength(s)]).Success?
    ensures Lexable(CreateToken(s[..MatchLength(s)]).value)
  {
    var n := MatchLength(s);
    var v := s[..n];
    if s[0] == '(' || s[0] == ')' {
      assert !IsKeyword(v);
    } else if StartsWithIgnoreCase(s, "AND") {
      assert IsKeyword(v);
    } else if StartsWithIgnoreCase(s, "OR") {
      assert IsKeyword(v);
    } else if IsComparatorChar(s[0]) {
      assert !IsKeyword(v) by { assert UpperChar(v[0]) == v[0]; }
      assert IsComparatorText(v);
    } else if IsWordChar(s[0]) {
      assert IsWord(v);
      WordNotKeyword(s, n);
      assert !IsComparatorText(v);
      assert !IsQuoted(v, '\'') && !IsQuoted(v, '"');
    } else {
      assert s[0] == '\'' || s[0] == '"';
      assert !IsKeyword(v) by { assert UpperChar(v[0]) == v[0]; }
      assert IsQuoted(v, s[0]);
      var inner := v[1..|v| - 1];
      assert s[0] !in inner;
    }
  }

  /** A word lexeme does not start with a keyword, since the keyword
      alternatives were tried first at the same position. */
  lemma WordNotKeyword(s: string, n: nat)
    requires 0 < n <= |s|
    requires !StartsWithIgnoreCase(s, "AND") && !StartsWithIgnoreCase(s, "OR")
    ensures !StartsWithKeyword(s[..n]) && !IsKeyword(s[..n])
  {
    var v := s[..n];
    if 3 <= n {
      assert v[..3] == s[..3];
    }
    if 2 <= n {
      assert v[..2] == s[..2];
    }
  }

  /** `tokenize`: the tokens of a rule text, in order. The source would
      throw if `createToken` rejected a lexeme; `LexemeClassified` shows it
      never does, so tokenizing always succeeds. */
  function Tokenize(s: string): (r: seq<Token>)
    ensures AllLexable(r)
    ensures |r| <= |s|
    decreases |s|
  {
    if |s| == 0 then
      []
    else
      var n := MatchLength(s);
      if n == 0 then
        Tokenize(s[1..])
      else
        LexemeClassified(s);
        [CreateToken(s[..n]).value] + Tokenize(s[n..])
  }

  /** One match of length `n` at the start gives its token, and the text
      after it is tokenized on its own. */
  lemma TokenizeMatch(s: string, n: nat, t: Token)
    requires 0 < n <= |s| && MatchLength(s) == n && CreateToken(s[..n]) == Success(t)
    ensures Tokenize(s) == [t] + Tokenize(s[n..])
  {
  }

  /** An unmatched first character is skipped. */
  lemma TokenizeSkip(s: string)
    requires 0 < |s| && MatchLength(s) == 0
    ensures Tokenize(s) == Tokenize(s[1..])
  {
  }
}
