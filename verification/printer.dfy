/** Printing rules back to tokens and text: the inverse of the parser and
    of the tokenizer. Rendering puts parentheses only where precedence needs
    them, and every condition's right-hand side becomes a quoted value. */
module Printer {
  import opened Results
  import opened Tokens
  import opened Ast
  import opened Lexer
  import opened Parser
  import opened LexerFacts

  const LParen := Token(Parenthesis, "(")
  const RParen := Token(Parenthesis, ")")

  /** Tokens of a tree at expression level (inside an OR chain). */
  function RenderExpr(n: Node): seq<Token>
    decreases n, 2
  {
    if n.OperatorNode? && n.op == "OR" then
      RenderExpr(n.left) + [Token(Operator, "OR")] + RenderTerm(n.right)
    else
      RenderTerm(n)
  }

  /** Tokens of a tree at term level (inside an AND chain). */
  function RenderTerm(n: Node): seq<Token>
    decreases n, 1
  {
    if n.OperatorNode? && n.op == "AND" then
      RenderTerm(n.left) + [Token(Operator, "AND")] + RenderFactor(n.right)
    else
      RenderFactor(n)
  }

  /** Tokens of a tree in factor position: a condition, or a parenthesised
      operator node. */
  function RenderFactor(n: Node): seq<Token>
    decreases n, 0
  {
    match n
    case OperandNode(a, c, l) =>
      [Token(Attribute, a), Token(Comparator, c), Token(Value, l.text)]
    case OperatorNode(op, l, r) =>
      if op == "OR" then
        [LParen] + RenderExpr(l) + [Token(Operator, op)] + RenderTerm(r) + [RParen]
      else
        [LParen] + RenderTerm(l) + [Token(Operator, op)] + RenderFactor(r) + [RParen]
  }

  /** The trees the parser can rebuild from their rendering: logical
      operators only, and each literal what coercion makes of its text. */
  predicate Renderable(n: Node, numeric: string -> bool) {
    match n
    case OperandNode(_, _, l) => LiteralAgrees(numeric, l)
    case OperatorNode(op, l, r) => IsLogicalOp(op) && Renderable(l, numeric) && Renderable(r, numeric)
  }

  /** The trees whose printed text tokenizes back to their rendering: in
      addition, attributes are words that do not start with a keyword,
      comparators are comparator spellings, and no literal holds both kinds
      of quote. */
  predicate Printable(n: Node, numeric: string -> bool) {
    match n
    case OperandNode(a, c, l) =>
      && LiteralAgrees(numeric, l)
      && Lexable(Token(Attribute, a))
      && IsComparatorText(c)
      && ValidToken(Token(Value, l.text))
    case OperatorNode(op, l, r) => IsLogicalOp(op) && Printable(l, numeric) && Printable(r, numeric)
  }

  // ---------------------------------------------------------------------
  // Tokens at a position
  // ---------------------------------------------------------------------

  /** The token `t` of a text stands where the rendering has `r`: it is
      `r` itself or, where the rendering has a value, the attribute token
      with the same text. A right-hand side written without quotes, such as
      the `30` of `age > 30`, is tokenized as an attribute. */
  predicate Fits(t: Token, r: Token) {
    t == r || (r.kind == Value && t == Token(Attribute, r.text))
  }

  /** `toks` holds `r` from position `pos` on, each right-hand side spelled
      either way. */
  predicate At(toks: seq<Token>, pos: nat, r: seq<Token>) {
    pos + |r| <= |toks| && forall i :: 0 <= i < |r| ==> Fits(toks[pos + i], r[i])
  }

  /** `toks` is the rendering `r` and nothing more. */
  predicate Matches(toks: seq<Token>, r: seq<Token>) {
    |toks| == |r| && At(toks, 0, r)
  }

  lemma AtConcat(toks: seq<Token>, pos: nat, a: seq<Token>, b: seq<Token>)
    requires At(toks, pos, a + b)
    ensures At(toks, pos, a) && At(toks, pos + |a|, b)
  {
    forall i | 0 <= i < |a|
      ensures Fits(toks[pos + i], a[i])
    {
      assert (a + b)[i] == a[i];
    }
    forall i | 0 <= i < |b|
      ensures Fits(toks[pos + |a| + i], b[i])
    {
      assert (a + b)[|a| + i] == b[i];
    }
  }

  /** Matches of two parts make a match of the whole. */
  lemma MatchesConcat(a: seq<Token>, ra: seq<Token>, b: seq<Token>, rb: seq<Token>)
    requires Matches(a, ra) && Matches(b, rb)
    ensures Matches(a + b, ra + rb)
  {
    forall i | 0 <= i < |ra + rb|
      ensures Fits((a + b)[0 + i], (ra + rb)[i])
    {
      if i < |ra| {
        assert Fits(a[0 + i], ra[i]);
      } else {
        assert Fits(b[0 + (i - |ra|)], rb[i - |ra|]);
      }
    }
  }

  lemma AtHead(toks: seq<Token>, pos: nat, r: seq<Token>)
    requires At(toks, pos, r) && |r| > 0
    ensures Fits(toks[pos], r[0])
    ensures r[0].kind != Value ==> toks[pos] == r[0]
  {
    assert Fits(toks[pos + 0], r[0]);
  }

  /** The rendering of an operator node in factor position is its
      expression rendering in parentheses. */
  lemma FactorIsParenthesised(n: Node)
    requires n.OperatorNode? && IsLogicalOp(n.op)
    ensures RenderFactor(n) == [LParen] + RenderExpr(n) + [RParen]
  {
  }

  // ---------------------------------------------------------------------
  // Parsing a rendering gives the tree back
  // ---------------------------------------------------------------------

  // One unfolding of each parsing function, stated on its own so that the
  // round-trip proofs below stay small.

  lemma ExpressionStep(toks: seq<Token>, pos: nat, numeric: string -> bool, t: Node, e: nat)
    requires pos <= |toks|
    requires ParseTerm(toks, pos, numeric) == Success((t, e))
    ensures ParseExpression(toks, pos, numeric) == ExpressionRest(toks, t, e, numeric)
  {
  }

  lemma ExpressionRestStep(toks: seq<Token>, left: Node, pos: nat, numeric: string -> bool, right: Node, e: nat)
    requires IsOpToken(toks, pos, "OR")
    requires ParseTerm(toks, pos + 1, numeric) == Success((right, e))
    ensures ExpressionRest(toks, left, pos, numeric) == ExpressionRest(toks, OperatorNode("OR", left, right), e, numeric)
  {
  }

  lemma TermStep(toks: seq<Token>, pos: nat, numeric: string -> bool, f: Node, e: nat)
    requires pos <= |toks|
    requires ParseFactor(toks, pos, numeric) == Success((f, e))
    ensures ParseTerm(toks, pos, numeric) == TermRest(toks, f, e, numeric)
  {
  }

  lemma TermRestStep(toks: seq<Token>, left: Node, pos: nat, numeric: string -> bool, right: Node, e: nat)
    requires IsOpToken(toks, pos, "AND")
    requires ParseFactor(toks, pos + 1, numeric) == Success((right, e))
    ensures TermRest(toks, left, pos, numeric) == TermRest(toks, OperatorNode("AND", left, right), e, numeric)
  {
  }

  lemma FactorParenStep(toks: seq<Token>, pos: nat, numeric: string -> bool, n: Node, e: nat)
    requires pos < |toks| && toks[pos] == LParen
    requires ParseExpression(toks, pos + 1, numeric) == Success((n, e))
    requires e < |toks| && toks[e].text == ")"
    ensures ParseFactor(toks, pos, numeric) == Success((n, e + 1))
  {
  }

  /** Parsing a rendered factor consumes exactly its tokens and yields the
      tree, whatever follows. */
  lemma {:induction false} FactorRoundTrip(n: Node, toks: seq<Token>, pos: nat, numeric: string -> bool)
    requires Renderable(n, numeric)
    requires At(toks, pos, RenderFactor(n))
    ensures ParseFactor(toks, pos, numeric) == Success((n, pos + |RenderFactor(n)|))
    decreases n, 3
  {
    match n
    case OperandNode(_, _, _) =>
      OperandRoundTrip(n, toks, pos, numeric);
    case OperatorNode(_, _, _) =>
      FactorIsParenthesised(n);
      ParenRoundTrip(n, toks, pos, numeric);
  }

  /** A rendered operator node in factor position is parenthesised; it
      parses back to itself. */
  lemma {:induction false} ParenRoundTrip(n: Node, toks: seq<Token>, pos: nat, numeric: string -> bool)
    requires n.OperatorNode? && Renderable(n, numeric)
    requires At(toks, pos, [LParen] + RenderExpr(n) + [RParen])
    ensures ParseFactor(toks, pos, numeric) == Success((n, pos + |RenderExpr(n)| + 2))
    decreases n, 2
  {
    var body := RenderExpr(n);
    var e := pos + 1 + |body|;
    assert toks[pos] == LParen && At(toks, pos + 1, body + [RParen]) by {
      assert [LParen] + body + [RParen] == [LParen] + (body + [RParen]);
      AtConcat(toks, pos, [LParen], body + [RParen]);
      AtHead(toks, pos, [LParen]);
    }
    assert e < |toks| && toks[e] == RParen by {
      AtConcat(toks, pos + 1, body, [RParen]);
      AtHead(toks, e, [RParen]);
    }
    assert ParseExpression(toks, pos + 1, numeric) == Success((n, e)) by {
      if n.op == "OR" {
        OrRoundTrip(n, toks, pos + 1, numeric);
      } else {
        assert body == RenderTerm(n);
        AndRoundTrip(n, toks, pos + 1, numeric);
        ExpressionStep(toks, pos + 1, numeric, n, e);
      }
    }
    FactorParenStep(toks, pos, numeric, n, e);
  }

  /** A rendered tree in parentheses is a factor, whatever token closes it
      as long as its text is `)`. */
  lemma GroupRoundTrip(n: Node, toks: seq<Token>, pos: nat, numeric: string -> bool)
    requires Renderable(n, numeric)
    requires pos < |toks| && toks[pos] == LParen
    requires At(toks, pos + 1, RenderExpr(n))
    requires pos + 1 + |RenderExpr(n)| < |toks| && toks[pos + 1 + |RenderExpr(n)|].text == ")"
    ensures ParseFactor(toks, pos, numeric) == Success((n, pos + |RenderExpr(n)| + 2))
  {
    var e := pos + 1 + |RenderExpr(n)|;
    assert !IsOpToken(toks, e, "AND") && !IsOpToken(toks, e, "OR");
    ExprRoundTrip(n, toks, pos + 1, numeric);
    FactorParenStep(toks, pos, numeric, n, e);
  }

  /** A rendered condition parses back to itself. */
  lemma OperandRoundTrip(n: Node, toks: seq<Token>, pos: nat, numeric: string -> bool)
    requires n.OperandNode? && Renderable(n, numeric)
    requires At(toks, pos, RenderFactor(n))
    ensures ParseFactor(toks, pos, numeric) == Success((n, pos + 3))
  {
    var r := RenderFactor(n);
    assert Fits(toks[pos + 0], r[0]) && Fits(toks[pos + 1], r[1]) && Fits(toks[pos + 2], r[2]);
    assert ParseCondition(toks, pos, numeric) == Success((n, pos + 3));
  }

  /** An OR node's rendering, followed by a closing parenthesis, parses back
      to the node. */
  lemma {:induction false} OrRoundTrip(n: Node, toks: seq<Token>, pos: nat, numeric: string -> bool)
    requires n.OperatorNode? && n.op == "OR" && Renderable(n, numeric)
    requires At(toks, pos, RenderExpr(n) + [RParen])
    ensures ParseExpression(toks, pos, numeric) == Success((n, pos + |RenderExpr(n)|))
    decreases n, 1
  {
    var end := pos + |RenderExpr(n)|;
    assert At(toks, pos, RenderExpr(n)) && !IsOpToken(toks, end, "AND") && !IsOpToken(toks, end, "OR") by {
      AtConcat(toks, pos, RenderExpr(n), [RParen]);
      AtHead(toks, end, [RParen]);
    }
    OrPrefix(n, toks, pos, numeric);
  }

  /** An AND node's rendering, followed by a closing parenthesis, parses
      back to the node as a term. */
  lemma {:induction false} AndRoundTrip(n: Node, toks: seq<Token>, pos: nat, numeric: string -> bool)
    requires n.OperatorNode? && n.op == "AND" && Renderable(n, numeric)
    requires At(toks, pos, RenderTerm(n) + [RParen])
    ensures ParseTerm(toks, pos, numeric) == Success((n, pos + |RenderTerm(n)|))
    decreases n, 1
  {
    var end := pos + |RenderTerm(n)|;
    assert At(toks, pos, RenderTerm(n)) && !IsOpToken(toks, end, "AND") by {
      AtConcat(toks, pos, RenderTerm(n), [RParen]);
      AtHead(toks, end, [RParen]);
    }
    AndPrefix(n, toks, pos, numeric);
  }

  /** Parsing a rendered term stops right after it with the tree as the
      AND loop's accumulator. */
  lemma {:induction false} TermPrefix(n: Node, toks: seq<Token>, pos: nat, numeric: string -> bool)
    requires Renderable(n, numeric)
    requires At(toks, pos, RenderTerm(n))
    ensures ParseTerm(toks, pos, numeric) == TermRest(toks, n, pos + |RenderTerm(n)|, numeric)
    decreases n, 4
  {
    var end := pos + |RenderTerm(n)|;
    if n.OperatorNode? && n.op == "AND" {
      AndPrefix(n, toks, pos, numeric);
    } else {
      FactorRoundTrip(n, toks, pos, numeric);
      TermStep(toks, pos, numeric, n, end);
    }
  }

  lemma {:induction false} AndPrefix(n: Node, toks: seq<Token>, pos: nat, numeric: string -> bool)
    requires n.OperatorNode? && n.op == "AND" && Renderable(n, numeric)
    requires At(toks, pos, RenderTerm(n))
    ensures ParseTerm(toks, pos, numeric) == TermRest(toks, n, pos + |RenderTerm(n)|, numeric)
    decreases n, 0
  {
    var t1 := RenderTerm(n.left);
    var f2 := RenderFactor(n.right);
    var m1 := pos + |t1|;
    var end := m1 + 1 + |f2|;
    AndSplitAt(n, toks, pos);
    TermPrefix(n.left, toks, pos, numeric);
    FactorRoundTrip(n.right, toks, m1 + 1, numeric);
    AndStep(toks, pos, n.left, n.right, m1, end, numeric);
  }

  /** The tokens of a rendered AND node: its left term, the operator and
      its right factor. */
  lemma AndSplitAt(n: Node, toks: seq<Token>, pos: nat)
    requires n.OperatorNode? && n.op == "AND"
    requires At(toks, pos, RenderTerm(n))
    ensures var m1 := pos + |RenderTerm(n.left)|;
      && At(toks, pos, RenderTerm(n.left)) && IsOpToken(toks, m1, "AND")
      && At(toks, m1 + 1, RenderFactor(n.right))
      && pos + |RenderTerm(n)| == m1 + 1 + |RenderFactor(n.right)|
  {
    var t1 := RenderTerm(n.left);
    var f2 := RenderFactor(n.right);
    assert RenderTerm(n) == t1 + [Token(Operator, "AND")] + f2;
    AtAroundOperator(toks, pos, t1, Token(Operator, "AND"), f2);
  }

  /** Tokens that fit `a`, an operator and then `b`, split at the operator. */
  lemma AtAroundOperator(toks: seq<Token>, pos: nat, a: seq<Token>, op: Token, b: seq<Token>)
    requires At(toks, pos, a + [op] + b) && op.kind == Operator
    ensures At(toks, pos, a) && pos + |a| < |toks| && toks[pos + |a|] == op
    ensures At(toks, pos + |a| + 1, b)
  {
    var m := pos + |a|;
    assert |a + [op]| == |a| + 1;
    AtConcat(toks, pos, a + [op], b);
    AtConcat(toks, pos, a, [op]);
    AtHead(toks, m, [op]);
  }

  /** The AND loop takes one more factor. */
  lemma AndStep(toks: seq<Token>, pos: nat, l: Node, r: Node, m1: nat, end: nat, numeric: string -> bool)
    requires pos <= m1 < |toks|
    requires ParseTerm(toks, pos, numeric) == TermRest(toks, l, m1, numeric)
    requires IsOpToken(toks, m1, "AND") && ParseFactor(toks, m1 + 1, numeric) == Success((r, end))
    ensures ParseTerm(toks, pos, numeric) == TermRest(toks, OperatorNode("AND", l, r), end, numeric)
  {
    TermRestStep(toks, l, m1, numeric, r, end);
  }

  lemma {:induction false} TermRoundTrip(n: Node, toks: seq<Token>, pos: nat, numeric: string -> bool)
    requires Renderable(n, numeric)
    requires At(toks, pos, RenderTerm(n))
    requires !IsOpToken(toks, pos + |RenderTerm(n)|, "AND")
    ensures ParseTerm(toks, pos, numeric) == Success((n, pos + |RenderTerm(n)|))
    decreases n, 5
  {
    TermPrefix(n, toks, pos, numeric);
  }

  /** Parsing a rendered expression stops right after it with the tree as
      the OR loop's accumulator, unless an AND follows. */
  lemma {:induction false} ExprPrefix(n: Node, toks: seq<Token>, pos: nat, numeric: string -> bool)
    requires Renderable(n, numeric)
    requires At(toks, pos, RenderExpr(n))
    requires !IsOpToken(toks, pos + |RenderExpr(n)|, "AND")
    ensures ParseExpression(toks, pos, numeric) == ExpressionRest(toks, n, pos + |RenderExpr(n)|, numeric)
    decreases n, 6
  {
    var end := pos + |RenderExpr(n)|;
    if n.OperatorNode? && n.op == "OR" {
      OrPrefix(n, toks, pos, numeric);
    } else {
      TermRoundTrip(n, toks, pos, numeric);
      ExpressionStep(toks, pos, numeric, n, end);
    }
  }

  lemma {:induction false} OrPrefix(n: Node, toks: seq<Token>, pos: nat, numeric: string -> bool)
    requires n.OperatorNode? && n.op == "OR" && Renderable(n, numeric)
    requires At(toks, pos, RenderExpr(n))
    requires !IsOpToken(toks, pos + |RenderExpr(n)|, "AND")
    ensures ParseExpression(toks, pos, numeric) == ExpressionRest(toks, n, pos + |RenderExpr(n)|, numeric)
    decreases n, 0
  {
    var e1 := RenderExpr(n.left);
    var t2 := RenderTerm(n.right);
    var m1 := pos + |e1|;
    var end := m1 + 1 + |t2|;
    assert RenderExpr(n) == e1 + [Token(Operator, "OR")] + t2;
    assert At(toks, pos, e1) && IsOpToken(toks, m1, "OR") && At(toks, m1 + 1, t2) by {
      AtConcat(toks, pos, e1 + [Token(Operator, "OR")], t2);
      AtConcat(toks, pos, e1, [Token(Operator, "OR")]);
      AtHead(toks, m1, [Token(Operator, "OR")]);
    }
    assert pos + |RenderExpr(n)| == end;
    assert n == OperatorNode("OR", n.left, n.right);
    ExprPrefix(n.left, toks, pos, numeric);
    TermRoundTrip(n.right, toks, m1 + 1, numeric);
    ExpressionRestStep(toks, n.left, m1, numeric, n.right, end);
  }

  /** Parsing a rendered tree yields the tree and stops right after its
      tokens when the next token is not a logical operator: trailing tokens
      such as a stray `)` or a second condition are ignored. */
  lemma ExprRoundTrip(n: Node, toks: seq<Token>, pos: nat, numeric: string -> bool)
    requires Renderable(n, numeric)
    requires At(toks, pos, RenderExpr(n))
    requires !IsOpToken(toks, pos + |RenderExpr(n)|, "AND")
    requires !IsOpToken(toks, pos + |RenderExpr(n)|, "OR")
    ensures ParseExpression(toks, pos, numeric) == Success((n, pos + |RenderExpr(n)|))
  {
    ExprPrefix(n, toks, pos, numeric);
  }

  // ---------------------------------------------------------------------
  // Printing tokens as text
  // ---------------------------------------------------------------------

  /** The text of one token; a value is quoted with a quote it does not
      contain. */
  function ShowToken(t: Token): string {
    if t.kind == Value then
      if '\'' !in t.text then "'" + t.text + "'" else "\"" + t.text + "\""
    else
      t.text
  }

  /** The tokens' texts, each followed by one space. */
  function Show(ts: seq<Token>): string {
    if |ts| == 0 then "" else ShowToken(ts[0]) + " " + Show(ts[1..])
  }

  /** The canonical text of a rule. */
  function ShowRule(n: Node): string {
    Show(RenderExpr(n))
  }

  /** A keyword cannot match across the space that ends a short word. */
  lemma ShortWordNotKeyword(w: string, rest: string, kw: string)
    requires IsWord(w) && (kw == "AND" || kw == "OR")
    requires !StartsWithIgnoreCase(w, kw)
    ensures !StartsWithIgnoreCase(w + " " + rest, kw)
  {
    var s := w + " " + rest;
    if |w| >= |kw| {
      assert s[..|kw|] == w[..|kw|];
    } else if |kw| <= |s| {
      assert UpperChar(s[|w|]) != UpperChar(kw[|w|]);
    }
  }

  /** The tokenizer reads a printed token back, and stops at the space. */
  lemma ShowTokenLexes(t: Token, rest: string)
    requires Lexable(t)
    ensures MatchLength(ShowToken(t) + " " + rest) == |ShowToken(t)|
    ensures CreateToken(ShowToken(t)) == Success(t)
  {
    var v := ShowToken(t);
    var s := v + " " + rest;
    match t.kind
    case Operator =>
      OperatorLexes(t, rest);
    case Parenthesis =>
    case Comparator =>
      assert !IsKeyword(v) && !StartsWithIgnoreCase(s, "AND") && !StartsWithIgnoreCase(s, "OR") by {
        assert UpperChar(s[0]) == s[0];
      }
    case Attribute =>
      AttributeLexes(t, rest);
    case Value =>
      ValueLexes(t, rest);
  }

  lemma OperatorLexes(t: Token, rest: string)
    requires t.kind == Operator && Lexable(t)
    ensures MatchLength(ShowToken(t) + " " + rest) == |ShowToken(t)|
    ensures CreateToken(ShowToken(t)) == Success(t)
  {
    var v := t.text;
    var s := v + " " + rest;
    assert s[..|v|] == v;
    if v == "AND" {
      assert StartsWithIgnoreCase(s, "AND");
    } else {
      assert !StartsWithIgnoreCase(s, "AND") by { assert UpperChar(s[0]) != 'A'; }
      assert StartsWithIgnoreCase(s, "OR");
    }
    assert IsKeyword(v);
    UpperOfKeyword(v, v);
  }

  lemma AttributeLexes(t: Token, rest: string)
    requires t.kind == Attribute && Lexable(t)
    ensures MatchLength(ShowToken(t) + " " + rest) == |ShowToken(t)|
    ensures CreateToken(ShowToken(t)) == Success(t)
  {
    var v := t.text;
    var s := v + " " + rest;
    ShortWordNotKeyword(v, rest, "AND");
    ShortWordNotKeyword(v, rest, "OR");
    assert !IsComparatorText(v);
    assert !IsQuoted(v, '\'') && !IsQuoted(v, '"');
    assert WordRun(s) == |v| by { WordRunOfWord(v, " " + rest); assert s == v + (" " + rest); }
  }

  lemma ValueLexes(t: Token, rest: string)
    requires t.kind == Value && Lexable(t)
    ensures MatchLength(ShowToken(t) + " " + rest) == |ShowToken(t)|
    ensures CreateToken(ShowToken(t)) == Success(t)
  {
    ValueMatchLength(t, rest);
    ValueCreate(t);
  }

  lemma ValueMatchLength(t: Token, rest: string)
    requires t.kind == Value && Lexable(t)
    ensures MatchLength(ShowToken(t) + " " + rest) == |ShowToken(t)|
  {
    var v := ShowToken(t);
    var s := v + " " + rest;
    var q := if '\'' !in t.text then '\'' else '"';
    assert s == [q] + t.text + ([q] + " " + rest);
    assert !StartsWithIgnoreCase(s, "AND") && !StartsWithIgnoreCase(s, "OR") by {
      assert UpperChar(s[0]) == s[0];
    }
    assert QuotedLength(s) == |v| by {
      assert s[1..] == t.text + ([q] + " " + rest);
      IndexOfAfter(t.text, [q] + " " + rest, q);
    }
  }

  lemma ValueCreate(t: Token)
    requires t.kind == Value && Lexable(t)
    ensures CreateToken(ShowToken(t)) == Success(t)
  {
    var v := ShowToken(t);
    var q := if '\'' !in t.text then '\'' else '"';
    assert v == [q] + t.text + [q];
    assert !IsKeyword(v) by {
      assert UpperChar(v[0]) == v[0];
    }
    assert v[1..|v| - 1] == t.text;
    assert IsQuoted(v, q);
    assert q == '"' ==> !IsQuoted(v, '\'');
  }

  lemma {:induction false} WordRunOfWord(w: string, rest: string)
    requires forall i :: 0 <= i < |w| ==> IsWordChar(w[i])
    requires |rest| > 0 && !IsWordChar(rest[0])
    ensures WordRun(w + rest) == |w|
  {
    if |w| > 0 {
      assert (w + rest)[1..] == w[1..] + rest;
      WordRunOfWord(w[1..], rest);
    }
  }

  lemma {:induction false} IndexOfAfter(a: string, rest: string, q: char)
    requires q !in a
    requires |rest| > 0 && rest[0] == q
    ensures IndexOf(a + rest, q) == |a|
  {
    if |a| > 0 {
      assert (a + rest)[1..] == a[1..] + rest;
      IndexOfAfter(a[1..], rest, q);
    }
  }

  /** A printed token is never empty. */
  lemma ShowTokenNonEmpty(t: Token)
    requires Lexable(t)
    ensures |ShowToken(t)| > 0
  {
  }

  /** Blanks between lexemes produce no token. */
  lemma TokenizeSpace(tail: string)
    ensures Tokenize(" " + tail) == Tokenize(tail)
  {
    assert (" " + tail)[1..] == tail;
  }

  /** One printed token, then a space: the tokenizer emits the token and
      carries on after the space. */
  lemma TokenizeShowToken(t: Token, tail: string)
    requires Lexable(t)
    ensures Tokenize(ShowToken(t) + " " + tail) == [t] + Tokenize(tail)
  {
    var v := ShowToken(t);
    var s := v + " " + tail;
    ShowTokenNonEmpty(t);
    ShowTokenLexes(t, tail);
    assert s[..|v|] == v && s[|v|..] == " " + tail;
    TokenizeMatch(s, |v|, t);
    TokenizeSpace(tail);
  }

  lemma ConsAppend(ts: seq<Token>, u: seq<Token>)
    requires |ts| > 0
    ensures [ts[0]] + (ts[1..] + u) == ts + u
  {
    assert ts == [ts[0]] + ts[1..];
  }

  /** Tokenizing printed tokens gives them back, followed by the tokens of
      whatever text comes after. */
  lemma {:induction false} TokenizeShow(ts: seq<Token>, rest: string)
    requires AllLexable(ts)
    ensures Tokenize(Show(ts) + rest) == ts + Tokenize(rest)
  {
    if |ts| > 0 {
      var tail := Show(ts[1..]) + rest;
      assert Show(ts) + rest == ShowToken(ts[0]) + " " + tail;
      TokenizeShowToken(ts[0], tail);
      TokenizeShow(ts[1..], rest);
      ConsAppend(ts, Tokenize(rest));
    } else {
      assert Show(ts) + rest == rest;
    }
  }

  /** A text printed from tokens, but for its last blank, tokenizes to
      those tokens. */
  lemma TokenizeShown(text: string, ts: seq<Token>)
    requires AllLexable(ts) && text + " " == Show(ts)
    ensures Tokenize(text) == ts
  {
    TokenizeTrailingBlank(text);
    TokenizeShow(ts, "");
    assert Show(ts) + "" == Show(ts);
  }

  /** Printed tokens leave no quote open. */
  lemma {:induction false} ShowClosed(ts: seq<Token>)
    requires AllLexable(ts)
    ensures Closed(Show(ts))
    decreases |ts|
  {
    if |ts| > 0 {
      assert AllLexable(ts[1..]) by {
        assert forall i :: 0 <= i < |ts| - 1 ==> ts[1..][i] == ts[i + 1];
      }
      ShowClosed(ts[1..]);
      ShowTokenClosed(ts[0], Show(ts[1..]));
    }
  }

  /** One printed token and a blank in front of a text that leaves no quote
      open leave none open either. */
  lemma ShowTokenClosed(t: Token, tail: string)
    requires Lexable(t) && Closed(tail)
    ensures Closed(ShowToken(t) + " " + tail)
  {
    var v := ShowToken(t);
    var s := v + " " + tail;
    ShowTokenNonEmpty(t);
    ShowTokenLexes(t, tail);
    assert s[|v|..] == " " + tail;
    assert (" " + tail)[1..] == tail;
  }

  /** Printing a concatenation prints the parts one after the other. */
  lemma {:induction false} ShowConcat(a: seq<Token>, b: seq<Token>)
    ensures Show(a + b) == Show(a) + Show(b)
    decreases |a|
  {
    if |a| > 0 {
      assert (a + b)[1..] == a[1..] + b;
      ShowConcat(a[1..], b);
    } else {
      assert a + b == b;
    }
  }

  /** Every token of a printable tree's rendering is one the tokenizer can
      produce. */
  lemma {:induction false} RenderExprLexable(n: Node, numeric: string -> bool)
    requires Printable(n, numeric)
    ensures AllLexable(RenderExpr(n))
    decreases n, 2
  {
    if n.OperatorNode? && n.op == "OR" {
      RenderExprLexable(n.left, numeric);
      RenderTermLexable(n.right, numeric);
    } else {
      RenderTermLexable(n, numeric);
    }
  }

  lemma {:induction false} RenderTermLexable(n: Node, numeric: string -> bool)
    requires Printable(n, numeric)
    ensures AllLexable(RenderTerm(n))
    decreases n, 1
  {
    if n.OperatorNode? && n.op == "AND" {
      RenderTermLexable(n.left, numeric);
      RenderFactorLexable(n.right, numeric);
    } else {
      RenderFactorLexable(n, numeric);
    }
  }

  lemma {:induction false} RenderFactorLexable(n: Node, numeric: string -> bool)
    requires Printable(n, numeric)
    ensures AllLexable(RenderFactor(n))
    decreases n, 0
  {
    match n
    case OperandNode(_, _, _) =>
    case OperatorNode(op, l, r) =>
      if op == "OR" {
        RenderExprLexable(l, numeric);
        RenderTermLexable(r, numeric);
      } else {
        RenderTermLexable(l, numeric);
        RenderFactorLexable(r, numeric);
      }
  }

  lemma {:induction false} PrintableIsRenderable(n: Node, numeric: string -> bool)
    requires Printable(n, numeric)
    ensures Renderable(n, numeric)
  {
    if n.OperatorNode? {
      PrintableIsRenderable(n.left, numeric);
      PrintableIsRenderable(n.right, numeric);
    }
  }

  /** The canonical text of a printable rule tokenizes to its rendering. */
  lemma TokenizeShowRule(n: Node, numeric: string -> bool)
    requires Printable(n, numeric)
    ensures Tokenize(ShowRule(n)) == RenderExpr(n)
  {
    RenderExprLexable(n, numeric);
    TokenizeShow(RenderExpr(n), "");
    assert Show(RenderExpr(n)) + "" == ShowRule(n);
  }

  /** Round trip through text: parsing the canonical text of a printable
      rule gives the rule back. */
  lemma ParseShowRule(n: Node, numeric: string -> bool)
    requires Printable(n, numeric)
    ensures ParseRule(ShowRule(n), numeric) == Success(n)
  {
    TokenizeShowRule(n, numeric);
    PrintableIsRenderable(n, numeric);
    var toks := Tokenize(ShowRule(n));
    assert Matches(toks, RenderExpr(n)) by { assert At(toks, 0, toks); }
    ParseRendered(ShowRule(n), n, numeric);
  }

  /** A text whose tokens are a rendering, each right-hand side quoted or
      not, parses to the rendered tree. */
  lemma ParseRendered(text: string, n: Node, numeric: string -> bool)
    requires Renderable(n, numeric)
    requires Matches(Tokenize(text), RenderExpr(n))
    ensures ParseRule(text, numeric) == Success(n)
  {
    var toks := Tokenize(text);
    ParseRendering(toks, n, numeric);
    ParseRuleStep(text, numeric, n, |toks|);
  }

  /** A rendering, on its own, parses to the rendered tree. */
  lemma ParseRendering(toks: seq<Token>, n: Node, numeric: string -> bool)
    requires Renderable(n, numeric) && Matches(toks, RenderExpr(n))
    ensures ParseExpression(toks, 0, numeric) == Success((n, |toks|))
  {
    assert !IsOpToken(toks, |toks|, "AND") && !IsOpToken(toks, |toks|, "OR");
    ExprRoundTrip(n, toks, 0, numeric);
  }
}
