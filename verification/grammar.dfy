/** Consequences of the grammar for particular token sequences: operator
    precedence and associativity, the error each malformed input gets, and
    what the parser leaves unread. */
module Grammar {
  import opened Results
  import opened Tokens
  import opened Ast
  import opened Lexer
  import opened Parser
  import opened Printer

  const AndTok := Token(Operator, "AND")
  const OrTok := Token(Operator, "OR")

  /** A condition whose literal is what coercion makes of its text. */
  predicate Condition(n: Node, numeric: string -> bool) {
    n.OperandNode? && LiteralAgrees(numeric, n.value)
  }

  /** AND binds tighter than OR: `x AND y OR z` is `(x AND y) OR z`. Here
      and below, `toks` is any token sequence that matches the rendering,
      with each right-hand side a value or an attribute. */
  lemma AndBindsTighter(x: Node, y: Node, z: Node, toks: seq<Token>, numeric: string -> bool)
    requires Condition(x, numeric) && Condition(y, numeric) && Condition(z, numeric)
    requires Matches(toks, RenderFactor(x) + [AndTok] + RenderFactor(y) + [OrTok] + RenderFactor(z))
    ensures ParseExpression(toks, 0, numeric) == Success((OperatorNode("OR", OperatorNode("AND", x, y), z), |toks|))
  {
    var xy := OperatorNode("AND", x, y);
    var n := OperatorNode("OR", xy, z);
    assert RenderExpr(n) == RenderFactor(x) + [AndTok] + RenderFactor(y) + [OrTok] + RenderFactor(z) by {
      assert RenderTerm(x) == RenderFactor(x);
      assert RenderExpr(xy) == RenderTerm(xy) == RenderFactor(x) + [AndTok] + RenderFactor(y);
      assert RenderTerm(z) == RenderFactor(z);
    }
    ParseRendering(toks, n, numeric);
  }

  /** ... and `x OR y AND z` is `x OR (y AND z)`. */
  lemma OrBindsLooser(x: Node, y: Node, z: Node, toks: seq<Token>, numeric: string -> bool)
    requires Condition(x, numeric) && Condition(y, numeric) && Condition(z, numeric)
    requires Matches(toks, RenderFactor(x) + [OrTok] + RenderFactor(y) + [AndTok] + RenderFactor(z))
    ensures ParseExpression(toks, 0, numeric) == Success((OperatorNode("OR", x, OperatorNode("AND", y, z)), |toks|))
  {
    var n := OperatorNode("OR", x, OperatorNode("AND", y, z));
    RenderOrAnd(x, y, z);
    ParseRendering(toks, n, numeric);
  }

  lemma RenderOrAnd(x: Node, y: Node, z: Node)
    requires x.OperandNode? && y.OperandNode? && z.OperandNode?
    ensures RenderExpr(OperatorNode("OR", x, OperatorNode("AND", y, z)))
      == RenderFactor(x) + [OrTok] + RenderFactor(y) + [AndTok] + RenderFactor(z)
  {
    var yz := OperatorNode("AND", y, z);
    assert RenderExpr(x) == RenderTerm(x) == RenderFactor(x);
    assert RenderTerm(yz) == RenderFactor(y) + [AndTok] + RenderFactor(z) by {
      assert RenderTerm(y) == RenderFactor(y);
    }
  }

  /** Chains of one operator group to the left. */
  lemma AndGroupsLeft(x: Node, y: Node, z: Node, toks: seq<Token>, numeric: string -> bool)
    requires Condition(x, numeric) && Condition(y, numeric) && Condition(z, numeric)
    requires Matches(toks, RenderFactor(x) + [AndTok] + RenderFactor(y) + [AndTok] + RenderFactor(z))
    ensures ParseExpression(toks, 0, numeric) == Success((OperatorNode("AND", OperatorNode("AND", x, y), z), |toks|))
  {
    var xy := OperatorNode("AND", x, y);
    var n := OperatorNode("AND", xy, z);
    assert RenderExpr(n) == RenderFactor(x) + [AndTok] + RenderFactor(y) + [AndTok] + RenderFactor(z) by {
      assert RenderTerm(x) == RenderFactor(x);
      assert RenderTerm(xy) == RenderFactor(x) + [AndTok] + RenderFactor(y);
      assert RenderExpr(n) == RenderTerm(n) == RenderTerm(xy) + [AndTok] + RenderFactor(z);
    }
    ParseRendering(toks, n, numeric);
  }

  lemma OrGroupsLeft(x: Node, y: Node, z: Node, toks: seq<Token>, numeric: string -> bool)
    requires Condition(x, numeric) && Condition(y, numeric) && Condition(z, numeric)
    requires Matches(toks, RenderFactor(x) + [OrTok] + RenderFactor(y) + [OrTok] + RenderFactor(z))
    ensures ParseExpression(toks, 0, numeric) == Success((OperatorNode("OR", OperatorNode("OR", x, y), z), |toks|))
  {
    var xy := OperatorNode("OR", x, y);
    var n := OperatorNode("OR", xy, z);
    assert RenderExpr(n) == RenderFactor(x) + [OrTok] + RenderFactor(y) + [OrTok] + RenderFactor(z) by {
      assert RenderExpr(x) == RenderTerm(x) == RenderFactor(x);
      assert RenderTerm(y) == RenderFactor(y);
      assert RenderTerm(z) == RenderFactor(z);
      assert RenderExpr(xy) == RenderFactor(x) + [OrTok] + RenderFactor(y);
    }
    ParseRendering(toks, n, numeric);
  }

  /** Without parentheses an OR never ends up below an AND. */
  lemma ParenFreeKeepsOrOnTop(toks: seq<Token>, numeric: string -> bool)
    requires NoOpenParen(toks)
    requires ParseExpression(toks, 0, numeric).Success?
    ensures NoOrUnderAnd(ParseExpression(toks, 0, numeric).value.0)
  {
    ExpressionOrChain(toks, 0, numeric);
    OrChainNoOrUnderAnd(ParseExpression(toks, 0, numeric).value.0);
  }

  /** Tokens after a complete expression are not read, unless the first
      of them is an operator. */
  lemma TrailingTokensIgnored(n: Node, toks: seq<Token>, numeric: string -> bool)
    requires Renderable(n, numeric)
    requires At(toks, 0, RenderExpr(n))
    requires |toks| > |RenderExpr(n)| ==> toks[|RenderExpr(n)|].kind != Operator
    ensures ParseExpression(toks, 0, numeric) == Success((n, |RenderExpr(n)|))
  {
    ExprRoundTrip(n, toks, 0, numeric);
  }

  /** An operator with nothing after it reads past the end of the tokens. */
  lemma DanglingAnd(n: Node, toks: seq<Token>, numeric: string -> bool)
    requires Renderable(n, numeric)
    requires Matches(toks, RenderTerm(n) + [AndTok])
    ensures ParseExpression(toks, 0, numeric) == Failure(TokenIndexOutOfRange)
  {
    var e := |RenderTerm(n)|;
    AtConcat(toks, 0, RenderTerm(n), [AndTok]);
    AtHead(toks, e, [AndTok]);
    TermPrefix(n, toks, 0, numeric);
    assert IsOpToken(toks, e, "AND");
    assert ParseFactor(toks, e + 1, numeric) == Failure(TokenIndexOutOfRange);
  }

  lemma DanglingOr(n: Node, toks: seq<Token>, numeric: string -> bool)
    requires Renderable(n, numeric)
    requires Matches(toks, RenderExpr(n) + [OrTok])
    ensures ParseExpression(toks, 0, numeric) == Failure(TokenIndexOutOfRange)
  {
    var e := |RenderExpr(n)|;
    AtConcat(toks, 0, RenderExpr(n), [OrTok]);
    AtHead(toks, e, [OrTok]);
    DanglingOrAt(n, toks, numeric);
  }

  lemma DanglingOrAt(n: Node, toks: seq<Token>, numeric: string -> bool)
    requires Renderable(n, numeric)
    requires At(toks, 0, RenderExpr(n)) && |toks| == |RenderExpr(n)| + 1 && toks[|RenderExpr(n)|] == OrTok
    ensures ParseExpression(toks, 0, numeric) == Failure(TokenIndexOutOfRange)
  {
    var e := |RenderExpr(n)|;
    ExprPrefix(n, toks, 0, numeric);
    assert IsOpToken(toks, e, "OR");
    assert ParseFactor(toks, e + 1, numeric) == Failure(TokenIndexOutOfRange);
  }

  /** A group that is never closed. */
  lemma MissingParen(n: Node, toks: seq<Token>, numeric: string -> bool)
    requires Renderable(n, numeric)
    requires Matches(toks, [LParen] + RenderExpr(n))
    ensures ParseExpression(toks, 0, numeric) == Failure(MissingClosingParenthesis)
  {
    AtConcat(toks, 0, [LParen], RenderExpr(n));
    AtHead(toks, 0, [LParen]);
    MissingParenAt(n, toks, numeric);
  }

  lemma MissingParenAt(n: Node, toks: seq<Token>, numeric: string -> bool)
    requires Renderable(n, numeric)
    requires |toks| == 1 + |RenderExpr(n)| && toks[0] == LParen && At(toks, 1, RenderExpr(n))
    ensures ParseExpression(toks, 0, numeric) == Failure(MissingClosingParenthesis)
  {
    ExprRoundTrip(n, toks, 1, numeric);
    assert ParseFactor(toks, 0, numeric) == Failure(MissingClosingParenthesis);
  }

  /** Only the text of the closing token is compared: a quoted `)` closes a
      group as well. */
  lemma QuotedParenCloses(n: Node, numeric: string -> bool)
    requires Renderable(n, numeric)
    ensures var toks := [LParen] + RenderExpr(n) + [Token(Value, ")")];
      ParseFactor(toks, 0, numeric) == Success((n, |toks|))
  {
    var close := Token(Value, ")");
    var r := RenderExpr(n);
    var toks := [LParen] + r + [close];
    assert toks[0] == LParen && toks[1 + |r|] == close && At(toks, 1, r) by {
      assert toks == [LParen] + (r + [close]);
      AtConcat(toks, 0, [LParen], r + [close]);
      AtConcat(toks, 1, r, [close]);
    }
    GroupRoundTrip(n, toks, 0, numeric);
  }

  /** A factor must start with `(` or an attribute. */
  lemma UnexpectedFirstToken(toks: seq<Token>, pos: nat, numeric: string -> bool)
    requires pos < |toks|
    requires toks[pos].kind != Attribute && toks[pos] != LParen
    ensures ParseExpression(toks, pos, numeric) == Failure(UnexpectedToken(toks[pos].text))
  {
    assert ParseFactor(toks, pos, numeric) == Failure(UnexpectedToken(toks[pos].text));
    assert ParseTerm(toks, pos, numeric) == Failure(UnexpectedToken(toks[pos].text));
  }

  /** A malformed condition fails the whole expression with its own error. */
  lemma ConditionErrorPropagates(toks: seq<Token>, pos: nat, numeric: string -> bool)
    requires pos < |toks| && toks[pos].kind == Attribute
    requires ParseCondition(toks, pos, numeric).Failure?
    ensures ParseExpression(toks, pos, numeric) == Failure(ParseCondition(toks, pos, numeric).error)
  {
    var err := ParseCondition(toks, pos, numeric).error;
    assert ParseFactor(toks, pos, numeric) == Failure(err);
    assert ParseTerm(toks, pos, numeric) == Failure(err);
  }

  /** Tokenizing blank text gives no tokens. */
  lemma {:induction false} BlankHasNoTokens(text: string)
    requires forall i :: 0 <= i < |text| ==> IsSpace(text[i])
    ensures Tokenize(text) == []
    decreases |text|
  {
    if |text| > 0 {
      BlankHasNoTokens(text[1..]);
    }
  }

  /** An empty or blank rule reads past the end of the tokens. */
  lemma BlankRule(text: string, numeric: string -> bool)
    requires forall i :: 0 <= i < |text| ==> IsSpace(text[i])
    ensures ParseRule(text, numeric) == Failure(TokenIndexOutOfRange)
  {
    BlankHasNoTokens(text);
    var none: seq<Token> := [];
    assert ParseTerm(none, 0, numeric) == Failure(TokenIndexOutOfRange);
    assert ParseExpression(none, 0, numeric) == Failure(TokenIndexOutOfRange);
  }
}
