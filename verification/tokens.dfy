/** Tokens of the rule language (Token.java) and the ASCII character
    classes the tokenizer's regular expression is built from. */
module Tokens {

  /** Token.TokenType. `Logical` is declared by the source but never
      produced by the tokenizer. */
  datatype TokenKind = Operator | Comparator | Parenthesis | Attribute | Value | Logical

  datatype Token = Token(kind: TokenKind, text: string)

  /** The failures of `Ruleparser.parse`: one constructor per
      `RuleParsingException` message, plus the index-out-of-range failure of
      reading a token past the end of the list. */
  datatype ParseError =
    | UnknownToken(text: string)
    | UnexpectedToken(text: string)
    | MissingClosingParenthesis
    | ExpectedComparatorAfterAttribute
    | ExpectedComparator(found: string)
    | ExpectedValueAfterComparator
    | ExpectedValue(found: string)
    | TokenIndexOutOfRange

  // ---------------------------------------------------------------------
  // Character classes (Java regex, no UNICODE_CHARACTER_CLASS)
  // ---------------------------------------------------------------------

  /** `\w`: ASCII letters, digits and underscore. */
  predicate IsWordChar(c: char) {
    ('a' <= c <= 'z') || ('A' <= c <= 'Z') || ('0' <= c <= '9') || c == '_'
  }

  predicate IsDigit(c: char) {
    '0' <= c <= '9'
  }

  /** `[a-zA-Z_]`: a character that may start an identifier. */
  predicate IsIdentStart(c: char) {
    ('a' <= c <= 'z') || ('A' <= c <= 'Z') || c == '_'
  }

  /** `[><=!]` */
  predicate IsComparatorChar(c: char) {
    c == '>' || c == '<' || c == '=' || c == '!'
  }

  /** `\s`: space, tab, newline, vertical tab, form feed, carriage return. */
  predicate IsSpace(c: char) {
    c == ' ' || c == '\t' || c == '\n' || c == '\U{000B}' || c == '\U{000C}' || c == '\r'
  }

  /** ASCII upper-casing, as used by case-insensitive matching. */
  function UpperChar(c: char): (u: char)
    ensures 'a' <= c <= 'z' ==> 'A' <= u <= 'Z'
    ensures !('a' <= c <= 'z') ==> u == c
  {
    if 'a' <= c <= 'z' then (c as int - 32) as char else c
  }

  function ToUpper(s: string): (u: string)
    ensures |u| == |s|
    ensures forall i :: 0 <= i < |s| ==> u[i] == UpperChar(s[i])
  {
    if |s| == 0 then [] else [UpperChar(s[0])] + ToUpper(s[1..])
  }

  /** `String.equalsIgnoreCase` on ASCII text. */
  predicate EqualsIgnoreCase(a: string, b: string) {
    |a| == |b| && forall i :: 0 <= i < |a| ==> UpperChar(a[i]) == UpperChar(b[i])
  }

  /** The case-insensitive pattern `kw` matches at the start of `s`. */
  predicate StartsWithIgnoreCase(s: string, kw: string) {
    |kw| <= |s| && EqualsIgnoreCase(s[..|kw|], kw)
  }

  predicate IsKeyword(w: string) {
    EqualsIgnoreCase(w, "AND") || EqualsIgnoreCase(w, "OR")
  }

  predicate StartsWithKeyword(w: string) {
    StartsWithIgnoreCase(w, "AND") || StartsWithIgnoreCase(w, "OR")
  }

  /** `\w+` */
  predicate IsWord(w: string) {
    |w| > 0 && forall i :: 0 <= i < |w| ==> IsWordChar(w[i])
  }

  /** `[a-zA-Z_][a-zA-Z0-9_]*` */
  predicate IsIdentifier(w: string) {
    IsWord(w) && IsIdentStart(w[0])
  }

  /** `[><=!]=?` */
  predicate IsComparatorText(v: string) {
    (|v| == 1 && IsComparatorChar(v[0])) || (|v| == 2 && IsComparatorChar(v[0]) && v[1] == '=')
  }

  /** `'[^']*'` (with q the single quote) or `"[^"]*"` (with q the double quote). */
  predicate IsQuoted(v: string, q: char) {
    |v| >= 2 && v[0] == q && v[|v| - 1] == q && q !in v[1..|v| - 1]
  }

  // ---------------------------------------------------------------------
  // Token invariants
  // ---------------------------------------------------------------------

  /** What `createToken` guarantees of the token it builds, kind by kind. */
  predicate ValidToken(t: Token) {
    match t.kind
    case Operator => t.text == "AND" || t.text == "OR"
    case Parenthesis => t.text == "(" || t.text == ")"
    case Comparator => IsComparatorText(t.text)
    case Attribute => IsWord(t.text) && !IsKeyword(t.text)
    case Value => '\'' !in t.text || '"' !in t.text
    case Logical => false
  }

  /** What the tokenizer guarantees in addition: an attribute never starts
      with a keyword, because the keyword alternative is tried first at the
      position where the word starts. */
  predicate Lexable(t: Token) {
    ValidToken(t) && (t.kind == Attribute ==> !StartsWithKeyword(t.text))
  }

  predicate AllLexable(ts: seq<Token>) {
    forall i :: 0 <= i < |ts| ==> Lexable(ts[i])
  }

  /** A keyword that matches ignoring case upper-cases to itself. */
  lemma UpperOfKeyword(v: string, kw: string)
    requires kw == "AND" || kw == "OR"
    requires EqualsIgnoreCase(v, kw)
    ensures ToUpper(v) == kw
  {
    var u := ToUpper(v);
    forall i | 0 <= i < |v|
      ensures u[i] == kw[i]
    {
      assert UpperChar(v[i]) == UpperChar(kw[i]);
    }
  }
}
