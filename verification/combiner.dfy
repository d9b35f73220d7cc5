/** Combining stored rules into one (RuleService.combineRules): the trees
    are folded into a left-leaning chain of operator nodes, and the rule
    texts are joined as `(s1) OP (s2) OP ... (sn)`. */
module Combiner {
  import opened Results
  import opened Tokens
  import opened Ast
  import opened Lexer
  import opened LexerFacts
  import opened Parser
  import opened Printer

  // ---------------------------------------------------------------------
  // Folding the trees
  // ---------------------------------------------------------------------

  /** The fold of `combineAstNodes` from the accumulator `acc` over the
      remaining trees. */
  function FoldFrom(acc: Node, rest: seq<Node>, op: string): Node
    decreases |rest|
  {
    if |rest| == 0 then acc else FoldFrom(OperatorNode(op, acc, rest[0]), rest[1..], op)
  }

  /** `combineAstNodes`: the first tree, then one operator node per further
      tree. An empty list has no first tree, so it is excluded. */
  function Combine(asts: seq<Node>, op: string): (r: Node)
    requires |asts| > 0
    ensures |asts| == 1 ==> r == asts[0]
  {
    FoldFrom(asts[0], asts[1..], op)
  }

  /** `n` has a left spine of `k` operator nodes, all labelled `op`. */
  predicate SpineOp(n: Node, op: string, k: nat) {
    k == 0 || (n.OperatorNode? && n.op == op && SpineOp(n.left, op, k - 1))
  }

  /** Undoing `k` steps of the fold: the tree at the bottom of the left
      spine, then the right children from the bottom up. */
  function Unchain(n: Node, k: nat): seq<Node> {
    if k == 0 || !n.OperatorNode? then [n] else Unchain(n.left, k - 1) + [n.right]
  }

  function SumSize(asts: seq<Node>): nat {
    if |asts| == 0 then 0 else SumSize(asts[..|asts| - 1]) + Size(asts[|asts| - 1])
  }

  function SumCountOp(asts: seq<Node>, op: string): nat {
    if |asts| == 0 then 0 else SumCountOp(asts[..|asts| - 1], op) + CountOp(asts[|asts| - 1], op)
  }

  lemma {:induction false} FoldSnoc(acc: Node, rest: seq<Node>, t: Node, op: string)
    ensures FoldFrom(acc, rest + [t], op) == OperatorNode(op, FoldFrom(acc, rest, op), t)
    decreases |rest|
  {
    if |rest| == 0 {
      assert (rest + [t])[1..] == [];
    } else {
      assert (rest + [t])[1..] == rest[1..] + [t];
      FoldSnoc(OperatorNode(op, acc, rest[0]), rest[1..], t, op);
    }
  }

  /** Adding a tree at the end adds one operator node on top. */
  lemma CombineSnoc(ts: seq<Node>, t: Node, op: string)
    requires |ts| > 0
    ensures Combine(ts + [t], op) == OperatorNode(op, Combine(ts, op), t)
  {
    assert (ts + [t])[1..] == ts[1..] + [t];
    FoldSnoc(ts[0], ts[1..], t, op);
  }

  /** The combined tree is a spine of `|asts| - 1` nodes labelled `op` with
      the input trees, unchanged and in order, hanging from it. */
  lemma {:induction false} CombineSpine(asts: seq<Node>, op: string)
    requires |asts| > 0
    ensures SpineOp(Combine(asts, op), op, |asts| - 1)
    ensures Unchain(Combine(asts, op), |asts| - 1) == asts
    decreases |asts|
  {
    if |asts| > 1 {
      var init := asts[..|asts| - 1];
      assert asts == init + [asts[|asts| - 1]];
      CombineSnoc(init, asts[|asts| - 1], op);
      CombineSpine(init, op);
    }
  }

  /** The spine and the trees under it determine the tree: `Combine` is
      the only tree with that shape. */
  lemma {:induction false} CombineUnique(n: Node, asts: seq<Node>, op: string)
    requires |asts| > 0
    requires SpineOp(n, op, |asts| - 1) && Unchain(n, |asts| - 1) == asts
    ensures n == Combine(asts, op)
    decreases |asts|
  {
    if |asts| > 1 {
      var init := asts[..|asts| - 1];
      assert Unchain(n.left, |asts| - 2) + [n.right] == asts;
      assert Unchain(n.left, |asts| - 2) == init && n.right == asts[|asts| - 1] by {
        assert (Unchain(n.left, |asts| - 2) + [n.right])[..|asts| - 1] == Unchain(n.left, |asts| - 2);
      }
      CombineUnique(n.left, init, op);
      assert asts == init + [asts[|asts| - 1]];
      CombineSnoc(init, asts[|asts| - 1], op);
    }
  }

  /** Exactly `|asts| - 1` nodes are added, and all of them carry `op`. */
  lemma {:induction false} CombineCounts(asts: seq<Node>, op: string)
    requires |asts| > 0
    ensures Size(Combine(asts, op)) == SumSize(asts) + |asts| - 1
    ensures CountOp(Combine(asts, op), op) == SumCountOp(asts, op) + |asts| - 1
    decreases |asts|
  {
    if |asts| == 1 {
      assert asts[..0] == [];
    } else {
      var init := asts[..|asts| - 1];
      assert asts == init + [asts[|asts| - 1]];
      CombineSnoc(init, asts[|asts| - 1], op);
      CombineCounts(init, op);
    }
  }

  /** Combining well-formed trees with AND or OR gives a well-formed tree. */
  lemma {:induction false} CombineWellFormed(asts: seq<Node>, op: string)
    requires |asts| > 0 && IsLogicalOp(op)
    requires forall i :: 0 <= i < |asts| ==> WellFormed(asts[i])
    ensures WellFormed(Combine(asts, op))
    decreases |asts|
  {
    if |asts| > 1 {
      var init := asts[..|asts| - 1];
      assert asts == init + [asts[|asts| - 1]];
      CombineSnoc(init, asts[|asts| - 1], op);
      CombineWellFormed(init, op);
    }
  }

  /** `combineAstNodes` as the loop of the source. */
  method CombineAstNodes(asts: seq<Node>, op: string) returns (combined: Node)
    requires |asts| > 0
    ensures SpineOp(combined, op, |asts| - 1) && Unchain(combined, |asts| - 1) == asts
    ensures Size(combined) == SumSize(asts) + |asts| - 1
    ensures CountOp(combined, op) == SumCountOp(asts, op) + |asts| - 1
  {
    combined := asts[0];
    var i := 1;
    while i < |asts|
      invariant 1 <= i <= |asts|
      invariant combined == Combine(asts[..i], op)
    {
      assert asts[..i + 1] == asts[..i] + [asts[i]];
      CombineSnoc(asts[..i], asts[i], op);
      combined := OperatorNode(op, combined, asts[i]);
      i := i + 1;
    }
    assert asts[..i] == asts;
    CombineSpine(asts, op);
    CombineCounts(asts, op);
  }

  // ---------------------------------------------------------------------
  // Joining the texts
  // ---------------------------------------------------------------------

  function Wrap(s: string): string {
    "(" + s + ")"
  }

  function Separator(op: string): string {
    " " + op + " "
  }

  /** Every further text, each wrapped and preceded by the separator. */
  function JoinTail(rest: seq<string>, op: string): string {
    if |rest| == 0 then "" else Separator(op) + Wrap(rest[0]) + JoinTail(rest[1..], op)
  }

  /** `(s1) OP (s2) OP ... (sn)`; the empty list gives the empty text. */
  function CombinedText(srcs: seq<string>, op: string): string {
    if |srcs| == 0 then "" else Wrap(srcs[0]) + JoinTail(srcs[1..], op)
  }

  lemma {:induction false} JoinTailSnoc(rest: seq<string>, s: string, op: string)
    ensures JoinTail(rest + [s], op) == JoinTail(rest, op) + Separator(op) + Wrap(s)
    decreases |rest|
  {
    if |rest| == 0 {
      assert (rest + [s])[1..] == [];
    } else {
      assert (rest + [s])[1..] == rest[1..] + [s];
      JoinTailSnoc(rest[1..], s, op);
    }
  }

  /** Appending one more text appends the separator and the wrapped text. */
  lemma CombinedTextSnoc(srcs: seq<string>, s: string, op: string)
    requires |srcs| > 0
    ensures CombinedText(srcs + [s], op) == CombinedText(srcs, op) + Separator(op) + Wrap(s)
  {
    assert (srcs + [s])[0] == srcs[0];
    assert (srcs + [s])[1..] == srcs[1..] + [s];
    JoinTailSnoc(srcs[1..], s, op);
    Assoc(Wrap(srcs[0]), JoinTail(srcs[1..], op), Separator(op), Wrap(s));
  }

  lemma Assoc(a: string, b: string, c: string, d: string)
    ensures a + (b + c + d) == a + b + c + d
  {
  }

  lemma Assoc3(a: string, b: string, c: string)
    ensures a + b + c == a + (b + c)
  {
  }

  /** The `StringBuilder` loop: wrap each text, and append the separator
      after every text but the last. */
  method BuildCombinedText(srcs: seq<string>, op: string) returns (text: string)
    ensures text == CombinedText(srcs, op)
  {
    text := "";
    var i := 0;
    while i < |srcs|
      invariant 0 <= i <= |srcs|
      invariant i == 0 ==> text == ""
      invariant 0 < i < |srcs| ==> text == CombinedText(srcs[..i], op) + Separator(op)
      invariant i == |srcs| > 0 ==> text == CombinedText(srcs[..i], op)
    {
      PrefixStep(srcs, i, op);
      text := text + Wrap(srcs[i]);
      if i < |srcs| - 1 {
        text := text + Separator(op);
      }
      i := i + 1;
    }
    if |srcs| > 0 {
      assert srcs[..i] == srcs;
    }
  }

  /** The combined text of one more prefix text. */
  lemma PrefixStep(srcs: seq<string>, i: nat, op: string)
    requires i < |srcs|
    ensures i == 0 ==> CombinedText(srcs[..1], op) == Wrap(srcs[0])
    ensures i > 0 ==> CombinedText(srcs[..i + 1], op) == CombinedText(srcs[..i], op) + Separator(op) + Wrap(srcs[i])
  {
    if i == 0 {
      assert srcs[..1][1..] == [];
    } else {
      assert srcs[..i + 1] == srcs[..i] + [srcs[i]];
      CombinedTextSnoc(srcs[..i], srcs[i], op);
    }
  }

  // ---------------------------------------------------------------------
  // The combined text parses to the combined tree
  // ---------------------------------------------------------------------

  /** The tokens of one wrapped rule. */
  function GroupTokens(a: Node): seq<Token> {
    [LParen] + RenderExpr(a) + [RParen]
  }

  /** The tokens of every further wrapped rule, each after the operator. */
  function TailTokens(rest: seq<Node>, op: string): seq<Token> {
    if |rest| == 0 then [] else [Token(Operator, op)] + GroupTokens(rest[0]) + TailTokens(rest[1..], op)
  }

  function CombinedTokens(asts: seq<Node>, op: string): seq<Token>
    requires |asts| > 0
  {
    GroupTokens(asts[0]) + TailTokens(asts[1..], op)
  }

  /** Each text leaves no quote open, and its tokens are a rendering of the
      corresponding tree, each right-hand side quoted or not. */
  predicate Rendered(srcs: seq<string>, asts: seq<Node>, numeric: string -> bool) {
    && |srcs| == |asts|
    && forall i :: 0 <= i < |asts| ==>
         Renderable(asts[i], numeric) && Closed(srcs[i]) && Matches(Tokenize(srcs[i]), RenderExpr(asts[i]))
  }

  lemma RenderedTail(srcs: seq<string>, asts: seq<Node>, numeric: string -> bool)
    requires Rendered(srcs, asts, numeric) && |asts| > 0
    ensures Rendered(srcs[1..], asts[1..], numeric)
    ensures Renderable(asts[0], numeric) && Closed(srcs[0]) && Matches(Tokenize(srcs[0]), RenderExpr(asts[0]))
  {
    assert forall i :: 0 <= i < |asts| - 1 ==> asts[1..][i] == asts[i + 1] && srcs[1..][i] == srcs[i + 1];
  }

  /** The canonical text of a printable tree is such a text. */
  lemma PrintableRendered(n: Node, numeric: string -> bool)
    requires Printable(n, numeric)
    ensures Renderable(n, numeric) && Closed(ShowRule(n)) && Matches(Tokenize(ShowRule(n)), RenderExpr(n))
  {
    PrintableIsRenderable(n, numeric);
    RenderExprLexable(n, numeric);
    ShowClosed(RenderExpr(n));
    TokenizeShowRule(n, numeric);
    assert At(RenderExpr(n), 0, RenderExpr(n));
  }

  /** The separator is one operator token. */
  lemma TokenizeSeparator(op: string, x: string)
    requires IsLogicalOp(op)
    ensures Tokenize(Separator(op) + x) == [Token(Operator, op)] + Tokenize(x)
  {
    var t := Token(Operator, op);
    assert Separator(op) + x == " " + (ShowToken(t) + " " + x);
    TokenizeSpace(ShowToken(t) + " " + x);
    TokenizeShowToken(t, x);
  }

  /** Parentheses around a text that leaves no quote open are tokens of
      their own. */
  lemma TokenizeGroup(body: string, x: string)
    requires Closed(body)
    ensures Tokenize("(" + (body + (")" + x))) == [LParen] + Tokenize(body) + [RParen] + Tokenize(x)
  {
    var close := ")" + x;
    var inner := body + close;
    var u := Tokenize(x);
    assert Tokenize("(" + inner) == [LParen] + Tokenize(inner) by {
      TokenizeParenthesis('(', inner);
    }
    assert Tokenize(inner) == Tokenize(body) + Tokenize(close) by {
      ClosedBefore(body, close);
      TokenizeAppend(body, close);
    }
    assert Tokenize(close) == [RParen] + u by {
      TokenizeParenthesis(')', x);
    }
    TokenAssoc([LParen], Tokenize(body), [RParen], u);
  }

  lemma TokenAssoc(a: seq<Token>, b: seq<Token>, c: seq<Token>, d: seq<Token>)
    ensures a + (b + (c + d)) == a + b + c + d
  {
  }

  lemma WrapAssoc(body: string, x: string)
    ensures Wrap(body) + x == "(" + (body + (")" + x))
  {
  }

  /** A wrapped rule text gives its tokens in parentheses. */
  lemma TokenizeWrap(src: string, x: string)
    requires Closed(src)
    ensures Tokenize(Wrap(src) + x) == Grouped(Tokenize(src)) + Tokenize(x)
  {
    WrapAssoc(src, x);
    TokenizeGroup(src, x);
  }

  function Grouped(ts: seq<Token>): seq<Token> {
    [LParen] + ts + [RParen]
  }

  /** Parenthesised tokens match the wrapped rendering. */
  lemma GroupedMatches(ts: seq<Token>, a: Node)
    requires Matches(ts, RenderExpr(a))
    ensures Matches(Grouped(ts), GroupTokens(a))
  {
    assert At([LParen], 0, [LParen]) && At([RParen], 0, [RParen]);
    MatchesConcat([LParen], [LParen], ts, RenderExpr(a));
    MatchesConcat([LParen] + ts, [LParen] + RenderExpr(a), [RParen], [RParen]);
  }

  /** The first separator and wrapped text of a non-empty tail. */
  lemma TokenizeJoinHead(srcs: seq<string>, op: string)
    requires IsLogicalOp(op) && |srcs| > 0 && Closed(srcs[0])
    ensures Tokenize(JoinTail(srcs, op))
      == [Token(Operator, op)] + Grouped(Tokenize(srcs[0])) + Tokenize(JoinTail(srcs[1..], op))
  {
    var rest := JoinTail(srcs[1..], op);
    var w := Wrap(srcs[0]) + rest;
    assert JoinTail(srcs, op) == Separator(op) + w by {
      Assoc3(Separator(op), Wrap(srcs[0]), rest);
    }
    TokenizeSeparator(op, w);
    TokenizeWrap(srcs[0], rest);
    TokenAssoc3([Token(Operator, op)], Grouped(Tokenize(srcs[0])), Tokenize(rest));
  }

  lemma TokenAssoc3(a: seq<Token>, b: seq<Token>, c: seq<Token>)
    ensures a + (b + c) == a + b + c
  {
  }

  /** The operator, a matching group and a matching rest match the tail. */
  lemma TailMatches(ts: seq<Token>, rest: seq<Token>, asts: seq<Node>, op: string)
    requires |asts| > 0
    requires Matches(ts, RenderExpr(asts[0])) && Matches(rest, TailTokens(asts[1..], op))
    ensures Matches([Token(Operator, op)] + Grouped(ts) + rest, TailTokens(asts, op))
  {
    var opTok := [Token(Operator, op)];
    assert At(opTok, 0, opTok);
    GroupedMatches(ts, asts[0]);
    MatchesConcat(opTok, opTok, Grouped(ts), GroupTokens(asts[0]));
    MatchesConcat(opTok + Grouped(ts), opTok + GroupTokens(asts[0]), rest, TailTokens(asts[1..], op));
  }

  lemma {:induction false} TokenizeJoinTail(srcs: seq<string>, asts: seq<Node>, op: string, numeric: string -> bool)
    requires IsLogicalOp(op) && Rendered(srcs, asts, numeric)
    ensures Matches(Tokenize(JoinTail(srcs, op)), TailTokens(asts, op))
    decreases |asts|
  {
    if |asts| > 0 {
      RenderedTail(srcs, asts, numeric);
      TokenizeJoinHead(srcs, op);
      TokenizeJoinTail(srcs[1..], asts[1..], op, numeric);
      TailMatches(Tokenize(srcs[0]), Tokenize(JoinTail(srcs[1..], op)), asts, op);
    } else {
      assert Tokenize(JoinTail(srcs, op)) == [];
    }
  }

  /** The combined text of rule texts tokenizes to tokens that match the
      combined renderings. */
  lemma TokenizeCombined(srcs: seq<string>, asts: seq<Node>, op: string, numeric: string -> bool)
    requires IsLogicalOp(op) && Rendered(srcs, asts, numeric) && |asts| > 0
    ensures Matches(Tokenize(CombinedText(srcs, op)), CombinedTokens(asts, op))
  {
    RenderedTail(srcs, asts, numeric);
    var rest := JoinTail(srcs[1..], op);
    TokenizeWrap(srcs[0], rest);
    GroupedMatches(Tokenize(srcs[0]), asts[0]);
    TokenizeJoinTail(srcs[1..], asts[1..], op, numeric);
    MatchesConcat(Grouped(Tokenize(srcs[0])), GroupTokens(asts[0]), Tokenize(rest), TailTokens(asts[1..], op));
  }

  /** Every tree of the list can be parsed back from its rendering. */
  predicate AllRenderable(asts: seq<Node>, numeric: string -> bool) {
    forall i :: 0 <= i < |asts| ==> Renderable(asts[i], numeric)
  }

  /** A wrapped rendering is a factor. */
  lemma GroupFactor(a: Node, toks: seq<Token>, pos: nat, numeric: string -> bool)
    requires Renderable(a, numeric)
    requires At(toks, pos, GroupTokens(a))
    ensures ParseFactor(toks, pos, numeric) == Success((a, pos + |GroupTokens(a)|))
  {
    var r := RenderExpr(a);
    assert toks[pos] == LParen && At(toks, pos + 1, r) && toks[pos + 1 + |r|] == RParen by {
      assert GroupTokens(a) == [LParen] + (r + [RParen]);
      AtConcat(toks, pos, [LParen], r + [RParen]);
      AtConcat(toks, pos + 1, r, [RParen]);
      AtHead(toks, pos, [LParen]);
      AtHead(toks, pos + 1 + |r|, [RParen]);
    }
    GroupRoundTrip(a, toks, pos, numeric);
  }

  /** Splitting the tokens of a non-empty tail at the first group. */
  lemma TailAt(toks: seq<Token>, pos: nat, rest: seq<Node>, op: string)
    requires |rest| > 0 && At(toks, pos, TailTokens(rest, op))
    ensures toks[pos] == Token(Operator, op)
    ensures At(toks, pos + 1, GroupTokens(rest[0]))
    ensures At(toks, pos + 1 + |GroupTokens(rest[0])|, TailTokens(rest[1..], op))
  {
    var g := GroupTokens(rest[0]);
    AtConcat(toks, pos, [Token(Operator, op)] + g, TailTokens(rest[1..], op));
    AtConcat(toks, pos, [Token(Operator, op)], g);
    AtHead(toks, pos, [Token(Operator, op)]);
  }

  /** With AND, the whole tail is read by the AND loop. */
  lemma {:induction false} AndTail(toks: seq<Token>, acc: Node, pos: nat, rest: seq<Node>, numeric: string -> bool)
    requires AllRenderable(rest, numeric)
    requires At(toks, pos, TailTokens(rest, "AND")) && pos + |TailTokens(rest, "AND")| == |toks|
    ensures TermRest(toks, acc, pos, numeric) == Success((FoldFrom(acc, rest, "AND"), |toks|))
    decreases |rest|
  {
    if |rest| > 0 {
      var e := pos + 1 + |GroupTokens(rest[0])|;
      TailAt(toks, pos, rest, "AND");
      GroupFactor(rest[0], toks, pos + 1, numeric);
      TermRestStep(toks, acc, pos, numeric, rest[0], e);
      assert AllRenderable(rest[1..], numeric) by {
        assert forall i :: 0 <= i < |rest| - 1 ==> rest[1..][i] == rest[i + 1];
      }
      AndTail(toks, OperatorNode("AND", acc, rest[0]), e, rest[1..], numeric);
    }
  }

  /** The AND loop stops in front of an OR or at the end. */
  lemma TermStopsAtOr(toks: seq<Token>, acc: Node, pos: nat, rest: seq<Node>, numeric: string -> bool)
    requires At(toks, pos, TailTokens(rest, "OR")) && pos + |TailTokens(rest, "OR")| == |toks|
    ensures TermRest(toks, acc, pos, numeric) == Success((acc, pos))
  {
    if |rest| > 0 {
      TailAt(toks, pos, rest, "OR");
    }
  }

  /** With OR, each group is a term and the whole tail is read by the OR
      loop. */
  lemma {:induction false} OrTail(toks: seq<Token>, acc: Node, pos: nat, rest: seq<Node>, numeric: string -> bool)
    requires AllRenderable(rest, numeric)
    requires At(toks, pos, TailTokens(rest, "OR")) && pos + |TailTokens(rest, "OR")| == |toks|
    ensures ExpressionRest(toks, acc, pos, numeric) == Success((FoldFrom(acc, rest, "OR"), |toks|))
    decreases |rest|
  {
    if |rest| > 0 {
      var e := pos + 1 + |GroupTokens(rest[0])|;
      TailAt(toks, pos, rest, "OR");
      assert At(toks, e, TailTokens(rest[1..], "OR")) && e + |TailTokens(rest[1..], "OR")| == |toks| by {
        assert TailTokens(rest, "OR") == [Token(Operator, "OR")] + GroupTokens(rest[0]) + TailTokens(rest[1..], "OR");
      }
      GroupFactor(rest[0], toks, pos + 1, numeric);
      TermStopsAtOr(toks, rest[0], e, rest[1..], numeric);
      TermStep(toks, pos + 1, numeric, rest[0], e);
      ExpressionRestStep(toks, acc, pos, numeric, rest[0], e);
      assert AllRenderable(rest[1..], numeric) by {
        assert forall i :: 0 <= i < |rest| - 1 ==> rest[1..][i] == rest[i + 1];
      }
      OrTail(toks, OperatorNode("OR", acc, rest[0]), e, rest[1..], numeric);
    }
  }

  /** Tokens that match the combined renderings parse to the combined
      tree. */
  lemma ParseCombinedTokens(toks: seq<Token>, asts: seq<Node>, op: string, numeric: string -> bool)
    requires |asts| > 0 && IsLogicalOp(op) && AllRenderable(asts, numeric)
    requires Matches(toks, CombinedTokens(asts, op))
    ensures ParseExpression(toks, 0, numeric) == Success((Combine(asts, op), |toks|))
  {
    var g := GroupTokens(asts[0]);
    var tail := TailTokens(asts[1..], op);
    AtConcat(toks, 0, g, tail);
    assert AllRenderable(asts[1..], numeric) by {
      assert forall i :: 0 <= i < |asts| - 1 ==> asts[1..][i] == asts[i + 1];
    }
    GroupFactor(asts[0], toks, 0, numeric);
    TermStep(toks, 0, numeric, asts[0], |g|);
    if op == "AND" {
      AndTail(toks, asts[0], |g|, asts[1..], numeric);
      ExpressionStep(toks, 0, numeric, Combine(asts, op), |toks|);
    } else {
      TermStopsAtOr(toks, asts[0], |g|, asts[1..], numeric);
      ExpressionStep(toks, 0, numeric, asts[0], |g|);
      OrTail(toks, asts[0], |g|, asts[1..], numeric);
    }
  }

  /** Parsing the combined text of rule texts gives the combined tree:
      the text and the tree stored for a combined rule agree. */
  lemma ParseCombinedText(srcs: seq<string>, asts: seq<Node>, op: string, numeric: string -> bool)
    requires |asts| > 0 && IsLogicalOp(op) && Rendered(srcs, asts, numeric)
    ensures ParseRule(CombinedText(srcs, op), numeric) == Success(Combine(asts, op))
  {
    var toks := Tokenize(CombinedText(srcs, op));
    TokenizeCombined(srcs, asts, op, numeric);
    ParseCombinedTokens(toks, asts, op, numeric);
    ParseRuleStep(CombinedText(srcs, op), numeric, Combine(asts, op), |toks|);
  }
}
