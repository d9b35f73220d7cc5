# Rule language front end and rule combiner

This project models the core of a small rule engine. A rule is a text such as
`age > 30 AND (department = 'Sales' OR salary >= 50000)`. The engine

- tokenizes the text with one case-insensitive regular expression
  (`Ruleparser.tokenize` / `createToken`);
- parses the tokens with a recursive-descent parser, OR over AND, left
  associative, with parenthesised groups and three-token conditions
  (`Ruleparser.parse` and its helpers), into an abstract syntax tree of
  operand nodes (conditions) and operator nodes;
- combines several stored rules into one (`RuleService.combineRules`): it
  folds the trees into a left-leaning chain of operator nodes
  (`combineAstNodes`) and joins the texts as `(s1) OP (s2) OP ... (sn)`;
- reads the attribute names of a rule from its text
  (`RuleService.extractAttributesFromRule`): it splits the text at logical
  operators and comparators, then collects every whole-word identifier.

Two functions compute and carry no contract of their own; lemmas state
what they compute. `Attributes.Split` is described by `Attributes.Spans`,
`Attributes.SpansTile` and `Attributes.DropTrailingEmpty`.
`Combiner.CombinedText` is described by `Combiner.CombinedTextSnoc` and
`Combiner.BuildCombinedText`.

Modules, one per part of the program:

| module | file | models |
|---|---|---|
| `Results` | results.dfy | the success-or-exception outcome of each operation |
| `Tokens` | tokens.dfy | `Token`, `Token.TokenType`, the parse errors, and the ASCII character classes of the patterns |
| `Lexer` | lexer.dfy | `tokenize` and `createToken` |
| `Ast` | ast.dfy | `ASTNode` with its two node kinds, and shape predicates on trees |
| `Parser` | parser.dfy | `parse`, `parseExpression`, `parseTerm`, `parseFactor`, `parseCondition` |
| `Printer` | printer.dfy | a printer (tree to tokens, tokens to text) that the parser inverts |
| `Grammar` | grammar.dfy | precedence, associativity, error cases, unread trailing tokens |
| `LexerFacts` | lexer_facts.dfy | what the tokenizer does with particular inputs |
| `Combiner` | combiner.dfy | `combineAstNodes`, the combined-text loop, and the combined text parsing to the combined tree |
| `Samples` | samples.dfy | worked examples on rule texts written without quotes around right-hand sides |
| `Attributes` | attributes.dfy | `extractAttributesFromRule`: the split, the identifier scan, and an exact description of the result |

The parser keeps a token list and a cursor in fields. Here every parsing
function takes the token sequence and a position, and returns the node it
built with the new position, or the error that the source throws. Reading a
token past the end of the list (`tokens.get` in `parseFactor`) is the
separate error `TokenIndexOutOfRange`, since in the source it is an index
exception and not a `RuleParsingException`. `Double.parseDouble` is the
parameter `numeric`, which says whether a text parses as a number. A
literal is `Num(text)` or `Str(text)` accordingly.

Where the documentation and the code disagree, the model follows
the code:

- A closing parenthesis is recognised by the token text alone, so a quoted
  `')'` closes a group (`Grammar.QuotedParenCloses`).
- A bare number such as `18` is an attribute token, not a value
  (`LexerFacts.NumberIsAttribute`).
- A word that begins with `and`/`or` in any case is split, so `order` is
  the operator `OR` and then the attribute `der` (`LexerFacts.OrderSplits`).
- A quoted value's words are reported as attributes
  (`Attributes.QuotedValueReported`).

## Model

All source paths are below `src/main/java/com/ruleengine/ruleapplication/`
in the repository; the table gives them in full.

| member | source | states |
|---|---|---|
| Lexer.CreateToken | src/main/java/com/ruleengine/ruleapplication/parser/Ruleparser.java:42-63 | a classified lexeme yields a token that satisfies the per-kind token invariant (operator `AND`/`OR`, parenthesis `(`/`)`, comparator spelling, non-keyword word attribute, value without one of the quotes) and is never `LOGICAL`; a literal in single or in double quotes gives a value token whose text is exactly what lies between its quotes; otherwise the failure is "Unknown token" carrying the lexeme |
| Lexer.MatchLength | src/main/java/com/ruleengine/ruleapplication/parser/Ruleparser.java:29 | the lexeme found by the pattern stays within the text, and no lexeme starts at a blank |
| Lexer.LexemeClassified | src/main/java/com/ruleengine/ruleapplication/parser/Ruleparser.java:29-37 | every lexeme the pattern can match is accepted by `createToken`, so the "Unknown token" branch is unreachable, and the token it yields satisfies the token invariant, with an attribute never starting with a keyword |
| Lexer.Tokenize | src/main/java/com/ruleengine/ruleapplication/parser/Ruleparser.java:27-40 | tokenizing never fails; every token satisfies the token invariant, and there are never more tokens than characters |
| Lexer.WordNotKeyword | src/main/java/com/ruleengine/ruleapplication/parser/Ruleparser.java:29-30 | a `\w+` lexeme never starts with AND or OR, because the keyword alternatives come first in the pattern |
| LexerFacts.KeywordFirst | src/main/java/com/ruleengine/ruleapplication/parser/Ruleparser.java:29-30 | where AND or OR matches ignoring case, the operator token is emitted upper-cased and scanning resumes right after it, even inside a word; AND is tried before OR |
| LexerFacts.ComparatorGreedy | src/main/java/com/ruleengine/ruleapplication/parser/Ruleparser.java:29 | a comparator character followed by `=` is one two-character comparator token |
| LexerFacts.SkipUnmatched | src/main/java/com/ruleengine/ruleapplication/parser/Ruleparser.java:33-37 | a character that starts no alternative is dropped without a token |
| LexerFacts.SkipUnterminatedQuote | src/main/java/com/ruleengine/ruleapplication/parser/Ruleparser.java:29 | an opening quote that is never closed is dropped and the text after it is tokenized as if it were absent |
| LexerFacts.WordToken | src/main/java/com/ruleengine/ruleapplication/parser/Ruleparser.java:58-59 | a word that does not start with a keyword is exactly one attribute token |
| LexerFacts.QuotedValue | src/main/java/com/ruleengine/ruleapplication/parser/Ruleparser.java:51-57 | a literal in single or in double quotes, followed by anything, is one value token carrying exactly the text between its quotes, and tokenizing resumes right after the closing quote |
| LexerFacts.OrderSplits | src/main/java/com/ruleengine/ruleapplication/parser/Ruleparser.java:29-30 | `order` tokenizes to the operator `OR` followed by the attribute `der` |
| LexerFacts.KeywordThenWord | src/main/java/com/ruleengine/ruleapplication/parser/Ruleparser.java:29-30 | a keyword glued to a word gives an operator token and then one attribute token |
| LexerFacts.TripleEqualsSplits | src/main/java/com/ruleengine/ruleapplication/parser/Ruleparser.java:29 | `===` tokenizes to the comparator `==` followed by the comparator `=` |
| LexerFacts.NumberIsAttribute | src/main/java/com/ruleengine/ruleapplication/parser/Ruleparser.java:58-59 | `18` tokenizes to one attribute token, not a value |
| LexerFacts.LowerCaseKeyword | src/main/java/com/ruleengine/ruleapplication/parser/Ruleparser.java:43-46 | `and` tokenizes to the operator token `AND` |
| LexerFacts.TokenizeAppend | src/main/java/com/ruleengine/ruleapplication/parser/Ruleparser.java:27-40 | tokenizing a concatenation is tokenizing each half, when the second half starts with a character no lexeme continues with and closes no quote the first half left open |
| LexerFacts.TokenizeTrailingBlank | src/main/java/com/ruleengine/ruleapplication/parser/Ruleparser.java:29-37 | a blank at the end of a text adds no token |
| LexerFacts.QuoteFreeClosed | src/main/java/com/ruleengine/ruleapplication/parser/Ruleparser.java:29-37 | a text without quotes leaves no quote open for a later text to close |
| Parser.ParseExpression | src/main/java/com/ruleengine/ruleapplication/parser/Ruleparser.java:65-79 | a successful parse consumes at least one token and stays within the tokens |
| Parser.ParseTerm | src/main/java/com/ruleengine/ruleapplication/parser/Ruleparser.java:81-95 | a successful parse consumes at least one token and stays within the tokens |
| Parser.ParseFactor | src/main/java/com/ruleengine/ruleapplication/parser/Ruleparser.java:97-119 | a successful factor strictly advances the cursor, which is why parsing terminates |
| Parser.ExpressionRest | src/main/java/com/ruleengine/ruleapplication/parser/Ruleparser.java:68-76 | the OR loop never moves the cursor back and never past the end of the tokens |
| Parser.TermRest | src/main/java/com/ruleengine/ruleapplication/parser/Ruleparser.java:84-92 | the AND loop never moves the cursor back and never past the end of the tokens |
| Ast.Coerce | src/main/java/com/ruleengine/ruleapplication/parser/Ruleparser.java:152-157 | the right-hand side keeps the token's text, and is a number exactly when the text parses as one |
| Parser.ParseCondition | src/main/java/com/ruleengine/ruleapplication/parser/Ruleparser.java:121-160 | a condition consumes exactly three tokens: attribute, comparator, and a value or attribute coerced to a literal; each of the four failures (no comparator, wrong comparator, no value, wrong value) happens exactly in its case, with the token text in the message; an attribute followed by a comparator and a value or attribute always succeeds |
| Parser.ParseRule | src/main/java/com/ruleengine/ruleapplication/parser/Ruleparser.java:21-25 | every tree `parse` returns is well formed: operators are `AND`/`OR`, conditions have a non-keyword word attribute and a comparator spelling |
| Parser.ExpressionWellFormed | src/main/java/com/ruleengine/ruleapplication/parser/Ruleparser.java:65-79 | from valid tokens the expression parser builds only well-formed trees |
| Parser.TermWellFormed | src/main/java/com/ruleengine/ruleapplication/parser/Ruleparser.java:81-95 | from valid tokens the term parser builds only well-formed trees |
| Parser.FactorWellFormed | src/main/java/com/ruleengine/ruleapplication/parser/Ruleparser.java:97-119 | from valid tokens a factor is a well-formed tree |
| Parser.ExpressionOrChain | src/main/java/com/ruleengine/ruleapplication/parser/Ruleparser.java:65-79 | without an opening parenthesis the parsed tree is a left-leaning OR chain of AND chains |
| Parser.TermAndChain | src/main/java/com/ruleengine/ruleapplication/parser/Ruleparser.java:81-95 | without an opening parenthesis a term is a left-leaning AND chain of conditions |
| Parser.FactorIsCondition | src/main/java/com/ruleengine/ruleapplication/parser/Ruleparser.java:100-115 | without an opening parenthesis a factor is a condition |
| Printer.ExprRoundTrip | src/main/java/com/ruleengine/ruleapplication/parser/Ruleparser.java:65-119 | the expression parser inverts the printer: the rendering of any tree with logical operators is parsed back to that tree, ending right after the rendering when no AND/OR follows |
| Printer.TermRoundTrip | src/main/java/com/ruleengine/ruleapplication/parser/Ruleparser.java:81-95 | the term parser inverts the term-level rendering |
| Printer.FactorRoundTrip | src/main/java/com/ruleengine/ruleapplication/parser/Ruleparser.java:97-119 | the factor parser inverts the factor-level rendering |
| Printer.TokenizeShowRule | src/main/java/com/ruleengine/ruleapplication/parser/Ruleparser.java:27-63 | the tokenizer inverts the printer: the canonical text of a printable tree tokenizes to its rendering |
| Printer.ParseShowRule | src/main/java/com/ruleengine/ruleapplication/parser/Ruleparser.java:21-25 | round trip through text: `parse` of the canonical text of a printable tree returns that tree |
| Printer.ParseRendered | src/main/java/com/ruleengine/ruleapplication/parser/Ruleparser.java:21-25 | any text whose tokens match a rendering, each right-hand side a value or an attribute, parses to the rendered tree |
| Printer.TokenizeShown | src/main/java/com/ruleengine/ruleapplication/parser/Ruleparser.java:27-63 | a text printed from valid tokens, without its last blank, tokenizes back to exactly those tokens |
| Grammar.AndBindsTighter | src/main/java/com/ruleengine/ruleapplication/parser/Ruleparser.java:65-95 | any tokens matching `x AND y OR z` (conditions whose right-hand sides are values or attributes) parse as `(x AND y) OR z`, reading every token |
| Grammar.OrBindsLooser | src/main/java/com/ruleengine/ruleapplication/parser/Ruleparser.java:65-95 | any tokens matching `x OR y AND z` (conditions whose right-hand sides are values or attributes) parse as `x OR (y AND z)`, reading every token |
| Grammar.AndGroupsLeft | src/main/java/com/ruleengine/ruleapplication/parser/Ruleparser.java:84-91 | any tokens matching `x AND y AND z` (conditions whose right-hand sides are values or attributes) parse as `(x AND y) AND z`, reading every token |
| Grammar.OrGroupsLeft | src/main/java/com/ruleengine/ruleapplication/parser/Ruleparser.java:68-75 | any tokens matching `x OR y OR z` (conditions whose right-hand sides are values or attributes) parse as `(x OR y) OR z`, reading every token |
| Grammar.ParenFreeKeepsOrOnTop | src/main/java/com/ruleengine/ruleapplication/parser/Ruleparser.java:65-95 | an OR node appears under an AND node only through parentheses |
| Grammar.TrailingTokensIgnored | src/main/java/com/ruleengine/ruleapplication/parser/Ruleparser.java:21-25 | tokens that begin with a rendering of a tree, right-hand sides quoted or not, and continue with anything but an operator parse to that tree, and the cursor stops right after the rendering: the rest is never read |
| Grammar.DanglingAnd | src/main/java/com/ruleengine/ruleapplication/parser/Ruleparser.java:84-98 | tokens matching a term and then AND, right-hand sides quoted or not, fail by reading past the end of the tokens |
| Grammar.DanglingOr | src/main/java/com/ruleengine/ruleapplication/parser/Ruleparser.java:68-98 | tokens matching an expression and then OR, right-hand sides quoted or not, fail by reading past the end of the tokens |
| Grammar.MissingParen | src/main/java/com/ruleengine/ruleapplication/parser/Ruleparser.java:106-111 | tokens matching `(` and then an expression, with no `)`, fail with "Missing closing parenthesis" |
| Grammar.QuotedParenCloses | src/main/java/com/ruleengine/ruleapplication/parser/Ruleparser.java:106-108 | a value token whose text is `)` closes a group, since only the text is compared |
| Grammar.UnexpectedFirstToken | src/main/java/com/ruleengine/ruleapplication/parser/Ruleparser.java:114-118 | a token that is neither `(` nor an attribute in factor position fails with "Unexpected token" and its text |
| Grammar.ConditionErrorPropagates | src/main/java/com/ruleengine/ruleapplication/parser/Ruleparser.java:121-146 | a malformed condition fails the whole expression with the condition's own error and no tree |
| Grammar.BlankHasNoTokens | src/main/java/com/ruleengine/ruleapplication/parser/Ruleparser.java:27-40 | blank text has no tokens |
| Grammar.BlankRule | src/main/java/com/ruleengine/ruleapplication/parser/Ruleparser.java:97-98 | an empty or blank rule fails by reading past the end of the tokens |
| Samples.FirstConditionOnly | src/main/java/com/ruleengine/ruleapplication/parser/Ruleparser.java:21-98 | a text whose tokens match one condition, right-hand side quoted or not, followed by nothing or by a non-operator token, parses to that condition alone |
| Samples.StrayParenIgnored | src/main/java/com/ruleengine/ruleapplication/parser/Ruleparser.java:21-98 | `a = 1 )` parses to the condition `a = 1`: the stray parenthesis is never read |
| Samples.SecondConditionIgnored | src/main/java/com/ruleengine/ruleapplication/parser/Ruleparser.java:21-98 | `a = 1 b = 2` parses to the condition `a = 1`: the second condition is never read |
| Samples.DanglingOperator | src/main/java/com/ruleengine/ruleapplication/parser/Ruleparser.java:65-98 | a text whose tokens match one condition, right-hand side quoted or not, followed by AND or OR fails by reading past the end of the tokens |
| Samples.DanglingAndText | src/main/java/com/ruleengine/ruleapplication/parser/Ruleparser.java:84-98 | `a = 1 AND` fails by reading past the end of the tokens |
| Samples.DanglingOrText | src/main/java/com/ruleengine/ruleapplication/parser/Ruleparser.java:68-98 | `a = 1 OR` fails by reading past the end of the tokens |
| Samples.UnclosedGroupText | src/main/java/com/ruleengine/ruleapplication/parser/Ruleparser.java:100-111 | `(a = 1` fails with "Missing closing parenthesis" |
| Combiner.Combine | src/main/java/com/ruleengine/ruleapplication/service/RuleService.java:105-111 | combining one tree returns that tree unchanged |
| Combiner.CombineSnoc | src/main/java/com/ruleengine/ruleapplication/service/RuleService.java:107-109 | the fold leans left: one more tree puts one operator node on top of the previous result |
| Combiner.CombineSpine | src/main/java/com/ruleengine/ruleapplication/service/RuleService.java:105-111 | the result is a left spine of n-1 nodes carrying the given operator, with the input trees hanging from it unchanged and in order |
| Combiner.CombineUnique | src/main/java/com/ruleengine/ruleapplication/service/RuleService.java:105-111 | that spine shape with those trees determines the result: it is the only such tree |
| Combiner.CombineCounts | src/main/java/com/ruleengine/ruleapplication/service/RuleService.java:105-111 | exactly n-1 nodes are added, all carrying the given operator |
| Combiner.CombineWellFormed | src/main/java/com/ruleengine/ruleapplication/service/RuleService.java:105-111 | combining well-formed trees with AND or OR gives a well-formed tree |
| Combiner.CombineAstNodes | src/main/java/com/ruleengine/ruleapplication/service/RuleService.java:105-111 | the loop of the source computes the spine with the trees in order, adding n-1 nodes that carry the operator |
| Combiner.CombinedTextSnoc | src/main/java/com/ruleengine/ruleapplication/service/RuleService.java:80-83 | one more rule appends ` OP ` and the parenthesised text, so the separator is only ever between two texts |
| Combiner.BuildCombinedText | src/main/java/com/ruleengine/ruleapplication/service/RuleService.java:74-84 | the `StringBuilder` loop produces `(s1) OP (s2) OP ... (sn)`, with no trailing separator |
| Combiner.TokenizeCombined | src/main/java/com/ruleengine/ruleapplication/service/RuleService.java:74-84 | the combined text of rule texts that leave no quote open tokenizes to tokens matching the parenthesised renderings of their trees joined by the operator token |
| Combiner.ParseCombinedTokens | src/main/java/com/ruleengine/ruleapplication/service/RuleService.java:87 | those tokens parse to the combined tree |
| Combiner.ParseCombinedText | src/main/java/com/ruleengine/ruleapplication/service/RuleService.java:74-92 | for AND or OR, and rule texts whose tokens match the renderings of their stored trees (right-hand sides quoted or not), parsing the stored combined text gives the stored combined tree, so the two agree |
| Combiner.PrintableRendered | src/main/java/com/ruleengine/ruleapplication/parser/Ruleparser.java:27-63 | the printed text of a printable tree is such a rule text |
| Samples.CombinedSample | src/main/java/com/ruleengine/ruleapplication/service/RuleService.java:74-92 | combining `age > 30` and `score >= 50` with AND stores the text `(age > 30) AND (score >= 50)`, which parses to the stored tree, the AND of the two conditions |
| Attributes.LogicalDelimiter | src/main/java/com/ruleengine/ruleapplication/service/RuleService.java:170 | the `\s+(AND\|OR)\s+` alternative matches only from a blank, through a keyword, to a blank; when a keyword follows the blanks and a blank follows the keyword, it matches |
| Attributes.ComparatorDelimiter | src/main/java/com/ruleengine/ruleapplication/service/RuleService.java:170 | the comparator alternative matches only a comparator other than `!`, with a blank just before and just after it; `<`, `>`, `=` between blanks match one character, and a comparator character followed by `=` between blanks matches two |
| Attributes.SpaceEnd | src/main/java/com/ruleengine/ruleapplication/service/RuleService.java:170 | the greedy `\s+` run: every character up to the end is a space, and the one at the end is not |
| Attributes.WordEnd | src/main/java/com/ruleengine/ruleapplication/service/RuleService.java:164 | the greedy word run: every character up to the end is a word character, and the one at the end is not |
| Attributes.KeywordAt | src/main/java/com/ruleengine/ruleapplication/service/RuleService.java:170 | the keyword alternative, ignoring case, matches 3 or 2 characters that spell a keyword, or nothing; it matches 3 whenever the next three characters spell AND, and otherwise 2 whenever the next two spell OR |
| Attributes.DelimiterAt | src/main/java/com/ruleengine/ruleapplication/service/RuleService.java:170 | a delimiter match stays within the text and begins and ends with a character that is not a word character |
| Attributes.Spans | src/main/java/com/ruleengine/ruleapplication/service/RuleService.java:170 | the parts cover the text from its first to its last character |
| Attributes.SpansTile | src/main/java/com/ruleengine/ruleapplication/service/RuleService.java:170 | the split is the leftmost match sequence: each part ends where a match starts, the next part starts where it ends, no match starts inside a part, and no word character touches a part |
| Attributes.DropTrailingEmpty | src/main/java/com/ruleengine/ruleapplication/service/RuleService.java:170 | `split` removes exactly the trailing empty parts |
| Attributes.UnionIdents | src/main/java/com/ruleengine/ruleapplication/service/RuleService.java:172-178 | the loop over the parts collects every identifier the scan finds in any part, and only identifiers |
| Attributes.IdentsFrom | src/main/java/com/ruleengine/ruleapplication/service/RuleService.java:172-178 | everything the scan collects matches `[a-zA-Z_][a-zA-Z0-9_]*` |
| Attributes.IdentsFromExact | src/main/java/com/ruleengine/ruleapplication/service/RuleService.java:164-178 | the `\b`-bounded identifier scan finds exactly the whole-word identifiers of a part, in both directions |
| Attributes.WordCovered | src/main/java/com/ruleengine/ruleapplication/service/RuleService.java:170 | a whole word that is not AND or OR lies entirely inside one part of the split |
| Attributes.SplitMember | src/main/java/com/ruleengine/ruleapplication/service/RuleService.java:170-178 | an attribute is collected exactly when it is an identifier of one of the parts |
| Attributes.ExtractAttributes | src/main/java/com/ruleengine/ruleapplication/service/RuleService.java:159-182 | the result contains every identifier the scan finds in each part of the split, and only identifiers |
| Attributes.ExtractSound | src/main/java/com/ruleengine/ruleapplication/service/RuleService.java:159-182 | every reported attribute is an identifier standing as a whole word of the rule text, so digit-leading words are never reported |
| Attributes.ExtractComplete | src/main/java/com/ruleengine/ruleapplication/service/RuleService.java:159-182 | every whole-word identifier of the rule text other than AND and OR is reported |
| Attributes.ExtractExact | src/main/java/com/ruleengine/ruleapplication/service/RuleService.java:159-182 | for every name other than AND and OR: reported if and only if it is a whole-word identifier of the rule text |
| Attributes.OperatorNotReported | src/main/java/com/ruleengine/ruleapplication/service/RuleService.java:170 | `a AND b` yields exactly `{a, b}`: the operator with spaces on both sides is removed by the split |
| Attributes.QuotedValueReported | src/main/java/com/ruleengine/ruleapplication/service/RuleService.java:164-178 | the word inside the quoted value of `dept = 'Sales'` is reported as an attribute |
| Attributes.AdjacentOperatorReported | src/main/java/com/ruleengine/ruleapplication/service/RuleService.java:170-178 | `a AND AND b` reports `AND`: the first operator's match takes the blank after it, so the second has no blank before it and stays in a part |

## Left out

- Evaluation of trees (`ASTNode.evaluate`): the node classes that implement it are not part of this model.
- JSON serialisation of trees with Jackson (`ASTNode` type tags, `writeValueAsString`, `readValue`): a library round trip. The combiner receives the trees directly, as if deserialising returned the tree that was stored.
- Persistence, lookups by name, duplicate-name and not-found checks, timestamps, the HTTP controller and the browser script.
- The order in which `findAllByNameIn` returns rules: the combiner works on a given list, in the order given.
- `Double.parseDouble`: floating point is not modelled. The parameter `numeric` decides whether a text is a number, and `Num` keeps the text.
- Unicode: character classes, `\s`, `\w`, `\b` and case-insensitive matching are the ASCII ones, which is what Java's patterns use without the Unicode flags on JDK 19 and later. Before JDK 19, `\b` judged word characters with `Character.isLetterOrDigit`, so a non-ASCII letter next to an identifier removed the boundary there and the identifier was not collected; that older behaviour is left out. `String.equalsIgnoreCase` is modelled with ASCII case folding too; it only ever sees lexemes the pattern matched, and those are ASCII words, parentheses, comparators or quoted literals, whose quotes already rule out a keyword.
- `trim()` of each lexeme is the identity: every lexeme starts and ends with a character that is not blank.
- The `ArrayList` built from the `HashSet` of attributes: its order is unspecified, so the result is modelled as a set.
- Combiner.Combine: an empty list is excluded by a precondition, because `combineRules` rejects an empty rule set before it calls `combineAstNodes`.
- Combiner.ParseCombinedText: stated only for the operators AND and OR, which are the only ones the controller passes on. It is stated only for rule texts that leave no quote open and whose tokens match the rendering of their stored tree, each right-hand side quoted or not. The largest exclusion is texts with redundant parentheses, whose tokens do not match the rendering of their own tree: every stored combined rule is one, since `(age > 30) AND (score >= 50)` renders as `age > 30 AND score >= 50`, so combining rules of which one is itself a combined rule, stored like any other rule, is not covered. A stored text with trailing tokens, such as `a = 1 )`, is not covered either.
- Lexer.MatchLength: its contract gives bounds only; which lexeme the pattern picks is stated by `Lexer.LexemeClassified`, `LexerFacts.KeywordFirst`, `LexerFacts.ComparatorGreedy`, `LexerFacts.WordToken` and `LexerFacts.QuotedValue`.
- Parser.ParseRule: does not itself exclude the "Unknown token" failure of the tokenizer; that is stated by `Lexer.Tokenize` and `Lexer.LexemeClassified`.
- Printer.TokenizeShowRule: covers the trees whose attributes do not start with a keyword and whose literals do not contain both kinds of quote; other trees have no text that tokenizes back to them.
- Attributes.ExtractExact: says nothing about AND and OR themselves. They are reported when no whitespace separates them from a neighbour, as in `(a = 1)AND b`, or when the blank before them was taken by the previous operator's match, as in `a AND AND b` (`Attributes.AdjacentOperatorReported`), and are not reported when removed by the split.
