/** The parsed form of a rule (ASTNode with its two implementations,
    tagged "operand" and "operator" in the interchange encoding). */
module Ast {
  import opened Tokens

  /** The right-hand side of a condition after `Double.parseDouble` was
      tried on the token text: a number when it parsed, else the text. The
      floating-point value itself is not modelled; `Num` keeps the text. */
  datatype Literal = Num(text: string) | Str(text: string)

  datatype Node =
    | OperandNode(attribute: string, comparator: string, value: Literal)
    | OperatorNode(op: string, left: Node, right: Node)

  /** Literal coercion at parse time; `numeric` says whether
      `Double.parseDouble` accepts a text. */
  function Coerce(numeric: string -> bool, text: string): (l: Literal)
    ensures l.text == text
    ensures l.Num? <==> numeric(text)
  {
    if numeric(text) then Num(text) else Str(text)
  }

  /** A literal as `Coerce` would have produced it from its own text. */
  predicate LiteralAgrees(numeric: string -> bool, l: Literal) {
    l.Num? <==> numeric(l.text)
  }

  predicate IsLogicalOp(op: string) {
    op == "AND" || op == "OR"
  }

  /** Every operator is AND or OR; every condition names a word attribute
      that is not a keyword and uses one of the comparator spellings. */
  predicate WellFormed(n: Node) {
    match n
    case OperandNode(a, c, _) => IsWord(a) && !IsKeyword(a) && IsComparatorText(c)
    case OperatorNode(op, l, r) => IsLogicalOp(op) && WellFormed(l) && WellFormed(r)
  }

  /** A left-leaning chain of AND nodes over conditions. */
  predicate AndChain(n: Node) {
    match n
    case OperandNode(_, _, _) => true
    case OperatorNode(op, l, r) => op == "AND" && AndChain(l) && r.OperandNode?
  }

  /** A left-leaning chain of OR nodes over AND chains: the only shape a
      rule without parentheses can take. */
  predicate OrChain(n: Node) {
    match n
    case OperandNode(_, _, _) => true
    case OperatorNode(op, l, r) =>
      if op == "OR" then OrChain(l) && AndChain(r) else AndChain(n)
  }

  /** No OR node below an AND node. */
  predicate NoOrUnderAnd(n: Node) {
    match n
    case OperandNode(_, _, _) => true
    case OperatorNode(op, l, r) =>
      NoOrUnderAnd(l) && NoOrUnderAnd(r) && (op == "AND" ==> NoOr(l) && NoOr(r))
  }

  predicate NoOr(n: Node) {
    match n
    case OperandNode(_, _, _) => true
    case OperatorNode(op, l, r) => op != "OR" && NoOr(l) && NoOr(r)
  }

  /** Number of nodes of a tree. */
  function Size(n: Node): (k: nat)
    ensures k >= 1
  {
    match n
    case OperandNode(_, _, _) => 1
    case OperatorNode(_, l, r) => 1 + Size(l) + Size(r)
  }

  /** Number of operator nodes labelled `op`. */
  function CountOp(n: Node, op: string): nat {
    match n
    case OperandNode(_, _, _) => 0
    case OperatorNode(o, l, r) => (if o == op then 1 else 0) + CountOp(l, op) + CountOp(r, op)
  }

  lemma {:induction false} AndChainHasNoOr(n: Node)
    requires AndChain(n)
    ensures NoOr(n)
  {
    if n.OperatorNode? {
      AndChainHasNoOr(n.left);
    }
  }

  /** The paren-free shape keeps every OR above every AND. */
  lemma {:induction false} OrChainNoOrUnderAnd(n: Node)
    requires OrChain(n)
    ensures NoOrUnderAnd(n)
  {
    match n
    case OperandNode(_, _, _) =>
    case OperatorNode(op, l, r) =>
      if op == "OR" {
        OrChainNoOrUnderAnd(l);
        AndChainNoOrUnderAnd(r);
      } else {
        AndChainNoOrUnderAnd(n);
      }
  }

  lemma {:induction false} AndChainNoOrUnderAnd(n: Node)
    requires AndChain(n)
    ensures NoOrUnderAnd(n)
  {
    if n.OperatorNode? {
      AndChainNoOrUnderAnd(n.left);
      AndChainHasNoOr(n.left);
    }
  }
}
