/** Worked examples on rule texts as users write them: right-hand sides
    without quotes, which the tokenizer reads as attributes. */
module Samples {
  import opened Results
  import opened Tokens
  import opened Ast
  import opened Lexer
  import opened LexerFacts
  import opened Parser
  import opened Printer
  import opened Grammar
  import opened Combiner

  /** The condition `a c v`, its literal coerced from `v`. */
  function Cond(a: string, c: string, v: string, numeric: string -> bool): Node {
    OperandNode(a, c, Coerce(numeric, v))
  }

  /** The tokens of `a c v` with `v` written without quotes. */
  function Plain(a: string, c: string, v: string): seq<Token> {
    [Token(Attribute, a), Token(Comparator, c), Token(Attribute, v)]
  }

  lemma ShowPlain(a: string, c: string, v: string)
    ensures Show(Plain(a, c, v)) == a + " " + c + " " + v + " "
  {
    var p := Plain(a, c, v);
    assert Show(p[2..]) == v + " " by {
      assert p[2..][1..] == [];
    }
    assert Show(p[1..]) == c + " " + Show(p[2..]) by {
      assert p[1..][1..] == p[2..];
    }
  }

  /** A word that starts neither with `o` nor with `an`, in either case,
      neither is nor starts with a keyword. */
  lemma NoKeywordStart(w: string)
    requires IsWord(w) && NoKeywordPrefix(w)
    ensures Lexable(Token(Attribute, w))
  {
    assert "AND"[0] == 'A' && "AND"[1] == 'N' && "OR"[0] == 'O';
    assert |w| >= 3 ==> w[..3][0] == w[0] && w[..3][1] == w[1];
    assert |w| >= 2 ==> w[..2][0] == w[0];
  }

  predicate NoKeywordPrefix(w: string)
    requires |w| > 0
  {
    UpperChar(w[0]) != 'O' && (UpperChar(w[0]) == 'A' ==> |w| < 2 || UpperChar(w[1]) != 'N')
  }

  lemma PlainLexable(a: string, c: string, v: string)
    requires IsComparatorText(c)
    requires IsWord(a) && NoKeywordPrefix(a)
    requires IsWord(v) && NoKeywordPrefix(v)
    ensures AllLexable(Plain(a, c, v))
  {
    NoKeywordStart(a);
    NoKeywordStart(v);
    var p := Plain(a, c, v);
    assert Lexable(p[0]) && Lexable(p[1]) && Lexable(p[2]);
  }

  /** Unquoted, the right-hand side still fits the rendering's value. */
  lemma PlainFits(a: string, c: string, v: string, numeric: string -> bool)
    ensures Matches(Plain(a, c, v), RenderFactor(Cond(a, c, v, numeric)))
    ensures Condition(Cond(a, c, v, numeric), numeric)
    ensures RenderExpr(Cond(a, c, v, numeric)) == RenderTerm(Cond(a, c, v, numeric)) == RenderFactor(Cond(a, c, v, numeric))
  {
    var p := Plain(a, c, v);
    var r := RenderFactor(Cond(a, c, v, numeric));
    assert Fits(p[0 + 0], r[0]) && Fits(p[0 + 1], r[1]) && Fits(p[0 + 2], r[2]);
  }

  lemma SelfMatches(ts: seq<Token>)
    ensures Matches(ts, ts)
  {
    assert At(ts, 0, ts);
  }

  /** A text that tokenizes to one condition, its right-hand side quoted or
      not, and then something other than an operator parses to that
      condition alone. */
  lemma FirstConditionOnly(text: string, x: Node, cond: seq<Token>, more: seq<Token>, numeric: string -> bool)
    requires Condition(x, numeric) && Matches(cond, RenderFactor(x))
    requires Tokenize(text) == cond + more
    requires |more| > 0 ==> more[0].kind != Operator
    ensures ParseRule(text, numeric) == Success(x)
  {
    var ts := cond + more;
    SelfMatches(more);
    MatchesConcat(cond, RenderFactor(x), more, more);
    assert RenderExpr(x) == RenderFactor(x);
    AtConcat(ts, 0, RenderExpr(x), more);
    assert |more| > 0 ==> ts[|cond|] == more[0];
    TrailingTokensIgnored(x, ts, numeric);
    ParseRuleStep(text, numeric, x, |RenderExpr(x)|);
  }

  /** `a = 1 )`: the stray parenthesis is never read. */
  lemma StrayParenIgnored(text: string, numeric: string -> bool)
    requires text == "a = 1 )"
    ensures ParseRule(text, numeric) == Success(Cond("a", "=", "1", numeric))
  {
    StrayParenTokens(text);
    PlainFits("a", "=", "1", numeric);
    FirstConditionOnly(text, Cond("a", "=", "1", numeric), Plain("a", "=", "1"), [RParen], numeric);
  }

  lemma StrayParenTokens(text: string)
    requires text == "a = 1 )"
    ensures Tokenize(text) == Plain("a", "=", "1") + [RParen]
  {
    ConditionThenShown(RParen);
    assert text + " " == "a = 1 " + ShowToken(RParen) + " ";
    TokenizeShown(text, Plain("a", "=", "1") + [RParen]);
  }

  /** The printed form of `a = 1` followed by one more token. */
  lemma ConditionThenShown(t: Token)
    requires t.kind != Value
    ensures Show(Plain("a", "=", "1") + [t]) == "a = 1 " + t.text + " "
  {
    ShowPlain("a", "=", "1");
    ShowConcat(Plain("a", "=", "1"), [t]);
    assert Show([t]) == t.text + " " + Show([t][1..]);
  }

  /** `a = 1 b = 2`: the second condition is never read. */
  lemma SecondConditionIgnored(text: string, numeric: string -> bool)
    requires text == "a = 1 b = 2"
    ensures ParseRule(text, numeric) == Success(Cond("a", "=", "1", numeric))
  {
    SecondConditionTokens(text);
    PlainFits("a", "=", "1", numeric);
    FirstConditionOnly(text, Cond("a", "=", "1", numeric), Plain("a", "=", "1"), Plain("b", "=", "2"), numeric);
  }

  lemma SecondConditionTokens(text: string)
    requires text == "a = 1 b = 2"
    ensures Tokenize(text) == Plain("a", "=", "1") + Plain("b", "=", "2")
  {
    var ts := Plain("a", "=", "1") + Plain("b", "=", "2");
    SecondConditionShown(text);
    TokenizeShown(text, ts);
  }

  lemma SecondConditionShown(text: string)
    requires text == "a = 1 b = 2"
    ensures text + " " == Show(Plain("a", "=", "1") + Plain("b", "=", "2"))
  {
    ShowPlain("a", "=", "1");
    ShowPlain("b", "=", "2");
    ShowConcat(Plain("a", "=", "1"), Plain("b", "=", "2"));
  }

  /** A text that tokenizes to one condition, its right-hand side quoted or
      not, and then AND, or OR, reads past the end of the tokens. */
  lemma DanglingOperator(text: string, x: Node, cond: seq<Token>, op: Token, numeric: string -> bool)
    requires Condition(x, numeric) && Matches(cond, RenderFactor(x))
    requires op == AndTok || op == OrTok
    requires Tokenize(text) == cond + [op]
    ensures ParseRule(text, numeric) == Failure(TokenIndexOutOfRange)
  {
    var ts := cond + [op];
    SelfMatches([op]);
    MatchesConcat(cond, RenderFactor(x), [op], [op]);
    assert RenderExpr(x) == RenderTerm(x) == RenderFactor(x);
    if op == AndTok {
      DanglingAnd(x, ts, numeric);
    } else {
      DanglingOr(x, ts, numeric);
    }
  }

  /** `a = 1 AND`: the AND loop reads past the end. */
  lemma DanglingAndText(text: string, numeric: string -> bool)
    requires text == "a = 1 AND"
    ensures ParseRule(text, numeric) == Failure(TokenIndexOutOfRange)
  {
    DanglingTokens(text, AndTok);
    PlainFits("a", "=", "1", numeric);
    DanglingOperator(text, Cond("a", "=", "1", numeric), Plain("a", "=", "1"), AndTok, numeric);
  }

  /** `a = 1 OR`: the OR loop reads past the end. */
  lemma DanglingOrText(text: string, numeric: string -> bool)
    requires text == "a = 1 OR"
    ensures ParseRule(text, numeric) == Failure(TokenIndexOutOfRange)
  {
    DanglingTokens(text, OrTok);
    PlainFits("a", "=", "1", numeric);
    DanglingOperator(text, Cond("a", "=", "1", numeric), Plain("a", "=", "1"), OrTok, numeric);
  }

  lemma DanglingTokens(text: string, op: Token)
    requires op == AndTok || op == OrTok
    requires text == "a = 1 " + op.text
    ensures Tokenize(text) == Plain("a", "=", "1") + [op]
  {
    ConditionThenShown(op);
    TokenizeShown(text, Plain("a", "=", "1") + [op]);
  }

  /** `(a = 1`: the group is never closed. */
  lemma UnclosedGroupText(text: string, numeric: string -> bool)
    requires text == "(a = 1"
    ensures ParseRule(text, numeric) == Failure(MissingClosingParenthesis)
  {
    UnclosedGroupTokens(text);
    var x := Cond("a", "=", "1", numeric);
    var p := Plain("a", "=", "1");
    PlainFits("a", "=", "1", numeric);
    SelfMatches([LParen]);
    MatchesConcat([LParen], [LParen], p, RenderExpr(x));
    MissingParen(x, [LParen] + p, numeric);
  }

  lemma UnclosedGroupTokens(text: string)
    requires text == "(a = 1"
    ensures Tokenize(text) == [LParen] + Plain("a", "=", "1")
  {
    var rest := text[1..];
    assert text == ['('] + rest;
    ConditionTokens(rest);
    TokenizeParenthesis('(', rest);
  }

  lemma ConditionTokens(text: string)
    requires text == "a = 1"
    ensures Tokenize(text) == Plain("a", "=", "1")
  {
    ShowPlain("a", "=", "1");
    TokenizeShown(text, Plain("a", "=", "1"));
  }

  /** The two sample rule texts contain no quote. */
  lemma LiteralClosed(text: string)
    requires text == "age > 30" || text == "score >= 50"
    ensures Closed(text)
  {
    QuoteFreeClosed(text);
  }

  /** `age > 30` is a rule text of the condition it names, as the combiner
      needs. */
  lemma AgeRule(text: string, numeric: string -> bool)
    requires text == "age > 30"
    ensures var n := Cond("age", ">", "30", numeric);
      Renderable(n, numeric) && Closed(text) && Matches(Tokenize(text), RenderExpr(n))
  {
    var p := Plain("age", ">", "30");
    ShowPlain("age", ">", "30");
    PlainLexable("age", ">", "30");
    TokenizeShown(text, p);
    PlainFits("age", ">", "30", numeric);
    LiteralClosed(text);
  }

  lemma ScoreRule(text: string, numeric: string -> bool)
    requires text == "score >= 50"
    ensures var n := Cond("score", ">=", "50", numeric);
      Renderable(n, numeric) && Closed(text) && Matches(Tokenize(text), RenderExpr(n))
  {
    var p := Plain("score", ">=", "50");
    ShowPlain("score", ">=", "50");
    PlainLexable("score", ">=", "50");
    TokenizeShown(text, p);
    PlainFits("score", ">=", "50", numeric);
    LiteralClosed(text);
  }

  /** Combining two rule texts with AND stores `(a) AND (b)`, which parses
      to the AND of their trees. */
  lemma CombinedPair(a: string, b: string, x: Node, y: Node, numeric: string -> bool)
    requires Rendered([a, b], [x, y], numeric)
    ensures CombinedText([a, b], "AND") == Wrap(a) + Separator("AND") + Wrap(b)
    ensures ParseRule(CombinedText([a, b], "AND"), numeric) == Success(OperatorNode("AND", x, y))
  {
    PairText(a, b, "AND");
    PairTree(x, y, "AND");
    ParseCombinedText([a, b], [x, y], "AND", numeric);
  }

  lemma PairText(a: string, b: string, op: string)
    ensures CombinedText([a, b], op) == Wrap(a) + Separator(op) + Wrap(b)
  {
    var tail := [a, b][1..];
    assert tail[0] == b && tail[1..] == [];
    assert JoinTail(tail[1..], op) == "";
    assert JoinTail(tail, op) == Separator(op) + Wrap(b) + "";
  }

  lemma PairTree(x: Node, y: Node, op: string)
    ensures Combine([x, y], op) == OperatorNode(op, x, y)
  {
    var rest := [x, y][1..];
    assert rest[0] == y && rest[1..] == [];
    assert FoldFrom(OperatorNode(op, x, y), rest[1..], op) == OperatorNode(op, x, y);
  }

  /** Combining `age > 30` and `score >= 50` with AND stores the text
      `(age > 30) AND (score >= 50)`, which parses to the stored tree: the
      AND of the two conditions. */
  lemma CombinedSample(a: string, b: string, numeric: string -> bool)
    requires a == "age > 30" && b == "score >= 50"
    ensures CombinedText([a, b], "AND") == "(age > 30) AND (score >= 50)"
    ensures ParseRule(CombinedText([a, b], "AND"), numeric)
      == Success(OperatorNode("AND", Cond("age", ">", "30", numeric), Cond("score", ">=", "50", numeric)))
  {
    var x := Cond("age", ">", "30", numeric);
    var y := Cond("score", ">=", "50", numeric);
    AgeRule(a, numeric);
    ScoreRule(b, numeric);
    assert Rendered([a, b], [x, y], numeric) by {
      forall i | 0 <= i < 2
        ensures Renderable([x, y][i], numeric) && Closed([a, b][i]) && Matches(Tokenize([a, b][i]), RenderExpr([x, y][i]))
      {
        if i == 0 {
          assert [a, b][i] == a && [x, y][i] == x;
        } else {
          assert [a, b][i] == b && [x, y][i] == y;
        }
      }
    }
    CombinedPair(a, b, x, y, numeric);
    SampleText(a, b);
  }

  lemma SampleText(a: string, b: string)
    requires a == "age > 30" && b == "score >= 50"
    ensures Wrap(a) + Separator("AND") + Wrap(b) == "(age > 30) AND (score >= 50)"
  {
    assert Wrap(a) == "(age > 30)";
    assert Wrap(b) == "(score >= 50)";
    assert Separator("AND") == " AND ";
  }
}
