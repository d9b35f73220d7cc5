/** The recursive-descent parser of `Ruleparser`:

      expression := term ("OR" term)*
      term       := factor ("AND" factor)*
      factor     := "(" expression ")" | condition
      condition  := ATTRIBUTE COMPARATOR (VALUE | ATTRIBUTE)

    The source keeps the token list and a cursor in fields; here every
    function takes the cursor and returns it with the node it built. Each
    `while` loop of the source is a "Rest" function that carries the node
    built so far. */
module Parser {
  import opened Results
  import opened Tokens
  import opened Ast
  import opened Lexer

  type Parsed = Result<(Node, nat), ParseError>

  /** The token at `p` is the logical operator `word`. */
  predicate IsOpToken(toks: seq<Token>, p: nat, word: string) {
    p < |toks| && toks[p].kind == Operator && toks[p].text == word
  }

  predicate AllValid(toks: seq<Token>) {
    forall i :: 0 <= i < |toks| ==> ValidToken(toks[i])
  }

  /** No opening parenthesis anywhere in the tokens. */
  predicate NoOpenParen(toks: seq<Token>) {
    forall i :: 0 <= i < |toks| ==> toks[i] != Token(Parenthesis, "(")
  }

  /** `parseExpression`: one term, then as long as the current token is the
      OR operator, another term, folded to the left. */
  function ParseExpression(toks: seq<Token>, pos: nat, numeric: string -> bool): (r: Parsed)
    requires pos <= |toks|
    ensures r.Success? ==> pos < r.value.1 <= |toks|
    decreases |toks| - pos, 3
  {
    var t :- ParseTerm(toks, pos, numeric);
    ExpressionRest(toks, t.0, t.1, numeric)
  }

  /** The OR loop of `parseExpression`, with `left` the node built so far. */
  function ExpressionRest(toks: seq<Token>, left: Node, pos: nat, numeric: string -> bool): (r: Parsed)
    requires pos <= |toks|
    ensures r.Success? ==> pos <= r.value.1 <= |toks|
    decreases |toks| - pos, 2
  {
    if IsOpToken(toks, pos, "OR") then
      var t :- ParseTerm(toks, pos + 1, numeric);
      ExpressionRest(toks, OperatorNode(toks[pos].text, left, t.0), t.1, numeric)
    else
      Success((left, pos))
  }

  /** `parseTerm`: one factor, then as long as the current token is the AND
      operator, another factor, folded to the left. */
  function ParseTerm(toks: seq<Token>, pos: nat, numeric: string -> bool): (r: Parsed)
    requires pos <= |toks|
    ensures r.Success? ==> pos < r.value.1 <= |toks|
    decreases |toks| - pos, 1
  {
    var f :- ParseFactor(toks, pos, numeric);
    TermRest(toks, f.0, f.1, numeric)
  }

  /** The AND loop of `parseTerm`, with `left` the node built so far. */
  function TermRest(toks: seq<Token>, left: Node, pos: nat, numeric: string -> bool): (r: Parsed)
    requires pos <= |toks|
    ensures r.Success? ==> pos <= r.value.1 <= |toks|
    decreases |toks| - pos, 1
  {
    if IsOpToken(toks, pos, "AND") then
      var f :- ParseFactor(toks, pos + 1, numeric);
      TermRest(toks, OperatorNode(toks[pos].text, left, f.0), f.1, numeric)
    else
      Success((left, pos))
  }

  /** `parseFactor`: a parenthesised expression or a condition. Reading the
      current token when there is none fails with an index out of range. A
      closing parenthesis is recognised by its text alone. */
  function ParseFactor(toks: seq<Token>, pos: nat, numeric: string -> bool): (r: Parsed)
    requires pos <= |toks|
    ensures r.Success? ==> pos < r.value.1 <= |toks|
    decreases |toks| - pos, 0
  {
    if pos == |toks| then
      Failure(TokenIndexOutOfRange)
    else
      var tok := toks[pos];
      if tok.kind == Parenthesis && tok.text == "(" then
        var e :- ParseExpression(toks, pos + 1, numeric);
        if e.1 >= |toks| || toks[e.1].text != ")" then
          Failure(MissingClosingParenthesis)
        else
          Success((e.0, e.1 + 1))
      else if tok.kind == Attribute then
        ParseCondition(toks, pos, numeric)
      else
        Failure(UnexpectedToken(tok.text))
  }

  /** `parseCondition`: exactly three tokens, an attribute, a comparator and
      a value or attribute, whose text is coerced to a literal. */
  function ParseCondition(toks: seq<Token>, pos: nat, numeric: string -> bool): (r: Parsed)
    requires pos < |toks| && toks[pos].kind == Attribute
    ensures r.Success? ==> r.value.1 == pos + 3 <= |toks|
    ensures r.Success? ==>
      && toks[pos + 1].kind == Comparator
      && (toks[pos + 2].kind == Value || toks[pos + 2].kind == Attribute)
      && r.value.0 == OperandNode(toks[pos].text, toks[pos + 1].text, Coerce(numeric, toks[pos + 2].text))
    ensures pos + 1 == |toks| ==> r == Failure(ExpectedComparatorAfterAttribute)
    ensures pos + 1 < |toks| && toks[pos + 1].kind != Comparator ==> r == Failure(ExpectedComparator(toks[pos + 1].text))
    ensures pos + 2 == |toks| && toks[pos + 1].kind == Comparator ==> r == Failure(ExpectedValueAfterComparator)
    ensures pos + 2 < |toks| && toks[pos + 1].kind == Comparator && toks[pos + 2].kind != Value && toks[pos + 2].kind != Attribute
      ==> r == Failure(ExpectedValue(toks[pos + 2].text))
    ensures pos + 2 < |toks| && toks[pos + 1].kind == Comparator && (toks[pos + 2].kind == Value || toks[pos + 2].kind == Attribute)
      ==> r.Success?
  {
    var attribute := toks[pos];
    if pos + 1 >= |toks| then
      Failure(ExpectedComparatorAfterAttribute)
    else
      var comparator := toks[pos + 1];
      if comparator.kind != Comparator then
        Failure(ExpectedComparator(comparator.text))
      else if pos + 2 >= |toks| then
        Failure(ExpectedValueAfterComparator)
      else
        var value := toks[pos + 2];
        if value.kind != Value && value.kind != Attribute then
          Failure(ExpectedValue(value.text))
        else
          Success((OperandNode(attribute.text, comparator.text, Coerce(numeric, value.text)), pos + 3))
  }

  /** `parse`: tokenize, then parse one expression from the first token.
      Tokens after a complete expression are not looked at. */
  function ParseRule(text: string, numeric: string -> bool): (r: Result<Node, ParseError>)
    ensures r.Success? ==> WellFormed(r.value)
  {
    var toks := Tokenize(text);
    assert AllValid(toks);
    var e :- ParseExpression(toks, 0, numeric);
    ExpressionWellFormed(toks, 0, numeric);
    Success(e.0)
  }

  /** `parse` is the expression parser applied to the tokens of the text. */
  lemma ParseRuleStep(text: string, numeric: string -> bool, n: Node, e: nat)
    requires ParseExpression(Tokenize(text), 0, numeric) == Success((n, e))
    ensures ParseRule(text, numeric) == Success(n)
  {
  }

  // ---------------------------------------------------------------------
  // Every tree built from valid tokens is well formed: operators are AND
  // or OR, conditions name an attribute and a comparator spelling.
  // ---------------------------------------------------------------------

  lemma {:induction false} ExpressionWellFormed(toks: seq<Token>, pos: nat, numeric: string -> bool)
    requires pos <= |toks| && AllValid(toks)
    requires ParseExpression(toks, pos, numeric).Success?
    ensures WellFormed(ParseExpression(toks, pos, numeric).value.0)
    decreases |toks| - pos, 3
  {
    var t := ParseTerm(toks, pos, numeric).value;
    TermWellFormed(toks, pos, numeric);
    ExpressionRestWellFormed(toks, t.0, t.1, numeric);
  }

  lemma {:induction false} ExpressionRestWellFormed(toks: seq<Token>, left: Node, pos: nat, numeric: string -> bool)
    requires pos <= |toks| && AllValid(toks) && WellFormed(left)
    requires ExpressionRest(toks, left, pos, numeric).Success?
    ensures WellFormed(ExpressionRest(toks, left, pos, numeric).value.0)
    decreases |toks| - pos, 2
  {
    if IsOpToken(toks, pos, "OR") {
      var t := ParseTerm(toks, pos + 1, numeric).value;
      TermWellFormed(toks, pos + 1, numeric);
      ExpressionRestWellFormed(toks, OperatorNode(toks[pos].text, left, t.0), t.1, numeric);
    }
  }

  lemma {:induction false} TermWellFormed(toks: seq<Token>, pos: nat, numeric: string -> bool)
    requires pos <= |toks| && AllValid(toks)
    requires ParseTerm(toks, pos, numeric).Success?
    ensures WellFormed(ParseTerm(toks, pos, numeric).value.0)
    decreases |toks| - pos, 1
  {
    var f := ParseFactor(toks, pos, numeric).value;
    FactorWellFormed(toks, pos, numeric);
    TermRestWellFormed(toks, f.0, f.1, numeric);
  }

  lemma {:induction false} TermRestWellFormed(toks: seq<Token>, left: Node, pos: nat, numeric: string -> bool)
    requires pos <= |toks| && AllValid(toks) && WellFormed(left)
    requires TermRest(toks, left, pos, numeric).Success?
    ensures WellFormed(TermRest(toks, left, pos, numeric).value.0)
    decreases |toks| - pos, 1
  {
    if IsOpToken(toks, pos, "AND") {
      var f := ParseFactor(toks, pos + 1, numeric).value;
      FactorWellFormed(toks, pos + 1, numeric);
      TermRestWellFormed(toks, OperatorNode(toks[pos].text, left, f.0), f.1, numeric);
    }
  }

  lemma {:induction false} FactorWellFormed(toks: seq<Token>, pos: nat, numeric: string -> bool)
    requires pos <= |toks| && AllValid(toks)
    requires ParseFactor(toks, pos, numeric).Success?
    ensures WellFormed(ParseFactor(toks, pos, numeric).value.0)
    decreases |toks| - pos, 0
  {
    if toks[pos].kind == Parenthesis && toks[pos].text == "(" {
      ExpressionWellFormed(toks, pos + 1, numeric);
    } else {
      assert ValidToken(toks[pos]) && ValidToken(toks[pos + 1]);
    }
  }

  // ---------------------------------------------------------------------
  // Without parentheses the tree is an OR chain of AND chains.
  // ---------------------------------------------------------------------

  lemma {:induction false} ExpressionOrChain(toks: seq<Token>, pos: nat, numeric: string -> bool)
    requires pos <= |toks| && NoOpenParen(toks)
    requires ParseExpression(toks, pos, numeric).Success?
    ensures OrChain(ParseExpression(toks, pos, numeric).value.0)
    decreases |toks| - pos, 3
  {
    var t := ParseTerm(toks, pos, numeric).value;
    TermAndChain(toks, pos, numeric);
    ExpressionRestOrChain(toks, t.0, t.1, numeric);
  }

  lemma {:induction false} ExpressionRestOrChain(toks: seq<Token>, left: Node, pos: nat, numeric: string -> bool)
    requires pos <= |toks| && NoOpenParen(toks) && OrChain(left)
    requires ExpressionRest(toks, left, pos, numeric).Success?
    ensures OrChain(ExpressionRest(toks, left, pos, numeric).value.0)
    decreases |toks| - pos, 2
  {
    if IsOpToken(toks, pos, "OR") {
      var t := ParseTerm(toks, pos + 1, numeric).value;
      TermAndChain(toks, pos + 1, numeric);
      ExpressionRestOrChain(toks, OperatorNode(toks[pos].text, left, t.0), t.1, numeric);
    }
  }

  lemma {:induction false} TermAndChain(toks: seq<Token>, pos: nat, numeric: string -> bool)
    requires pos <= |toks| && NoOpenParen(toks)
    requires ParseTerm(toks, pos, numeric).Success?
    ensures AndChain(ParseTerm(toks, pos, numeric).value.0)
    decreases |toks| - pos, 1
  {
    var f := ParseFactor(toks, pos, numeric).value;
    FactorIsCondition(toks, pos, numeric);
    TermRestAndChain(toks, f.0, f.1, numeric);
  }

  lemma {:induction false} TermRestAndChain(toks: seq<Token>, left: Node, pos: nat, numeric: string -> bool)
    requires pos <= |toks| && NoOpenParen(toks) && AndChain(left)
    requires TermRest(toks, left, pos, numeric).Success?
    ensures AndChain(TermRest(toks, left, pos, numeric).value.0)
    decreases |toks| - pos, 1
  {
    if IsOpToken(toks, pos, "AND") {
      var f := ParseFactor(toks, pos + 1, numeric).value;
      FactorIsCondition(toks, pos + 1, numeric);
      TermRestAndChain(toks, OperatorNode(toks[pos].text, left, f.0), f.1, numeric);
    }
  }

  /** Without an opening parenthesis a factor can only be a condition. */
  lemma FactorIsCondition(toks: seq<Token>, pos: nat, numeric: string -> bool)
    requires pos <= |toks| && NoOpenParen(toks)
    requires ParseFactor(toks, pos, numeric).Success?
    ensures ParseFactor(toks, pos, numeric).value.0.OperandNode?
  {
    assert toks[pos] != Token(Parenthesis, "(");
  }
}
