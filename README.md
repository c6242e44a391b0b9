# A verified model of a small compiler's core

This project models, in Dafny, the core of a compiler for a small custom
language written in C++ (joonashalinen/custom-language-compiler), together
with the string logic of its Python end-to-end test runner. It covers these
parts:

- **Runtime data structures.**
  - `LinkedMap`, a stack of scopes in which inner bindings shadow outer ones.
  - `BatchStack`, which pushes and pops several values at once.
  - `VariableStack`, which hands out 8-byte stack slots.
  - `FoldableNode`, a post-order fold over a tree.
  - The `Expression` tree node with `addChild`.
- **Lexing.**
  - The `TokenSequence` cursor and its synthetic end token.
  - `Location`, which turns an offset into a line and a column.
  - The tokenizer's first-match loop, which assigns absolute positions, drops comments and whitespace, and appends the end token.
- **Parser combinators.**
  - Literal, unary, binary, map dispatch, parenthetical, conflict (longest match), chain, list, skeleton and operated chain.
  - The older `DExpression`-based variants.
  - The language's separator rules and its syntax-tree factory.
  - Each parser is a function from a token list and a start position to a tree or an error. An exception becomes an `Err` carrying its message.
- **Back end.**
  - `IRCommand::toString`.
  - The IR command factory and its fresh-variable counter.
  - The IR generator for number and chain nodes.
  - `FunctionType::toString`.
  - The assembly generator and the x86 `LoadIntConst` emission.
- **End-to-end protocol.** A case file is split on `"\n!expect!\n"` and the program's output is compared with the expected text.

Most source files are one Dafny module each, in a file named after it. The
exceptions: the expression classes (LiteralExpression.cpp,
UnaryExpression.cpp, BinaryExpression.cpp) and ExpressionMap.cpp share the
module of their parser; the language's own ChainParser.cpp is
`LanguageChainParser`; and decimal.dfy, texts.dfy, wrappers.dfy and
parsing.dfy hold shared definitions that model no single source file. Code that
updates state in place (the data structures, the cursor, the tokenizer loop,
the chain and skeleton loops, the factories' counters) is written as classes
and methods with loops. Each of those is proved against a specification
function, and the properties of that function are proved as lemmas. Pure
code (folds, parsers, string builders) is written as functions with lemmas.
Sub-parsers, the regular-expression recogniser and the compile-and-run step
are function-typed parameters.

The test runner compares outputs exactly (src/test/end_to_end.py:22), with
no trimming of a trailing newline, and treats every entry its case folder
lists as a case (src/test/end_to_end.py:5-13).

## Model

| member | source | states |
|---|---|---|
| LinkedMaps.InsertFront | src/components/data_structures/LinkedMap.h:85-89 | inserting changes only the front map; all maps behind it are kept, and the number of maps is unchanged |
| LinkedMaps.LinkedMap.constructor | src/components/data_structures/LinkedMap.h:51-55 | a new LinkedMap holds exactly one empty map and its size is 1 |
| LinkedMaps.LinkedMap.At | src/components/data_structures/LinkedMap.h:57-68 | `at` returns the front-most binding of the key, or the "No value at key …" error |
| LinkedMaps.LinkedMap.Contains | src/components/data_structures/LinkedMap.h:76-83 | `contains` holds exactly when some map binds the key |
| LinkedMaps.LinkedMap.Front | src/components/data_structures/LinkedMap.h:70-74 | `front` is the innermost (last) map |
| LinkedMaps.LinkedMap.Insert | src/components/data_structures/LinkedMap.h:85-89 | the maps become `InsertFront` of the old maps; the size and the invariant are kept |
| LinkedMaps.LinkedMap.PushFront | src/components/data_structures/LinkedMap.h:91-96 | one empty map is added at the front and the size grows by one |
| LinkedMaps.LinkedMap.PopFront | src/components/data_structures/LinkedMap.h:98-105 | the front map is removed only when the size is above 1, so at least one map always remains |
| LinkedMaps.LookupFindsFrontmost | src/components/data_structures/LinkedMap.h:57-68 | lookup succeeds exactly when some map binds the key, and then returns the binding of the front-most such map; inner scopes shadow outer ones |
| LinkedMaps.ContainsIffLookupSucceeds | src/components/data_structures/LinkedMap.h:76-83 | `contains` holds exactly when `at` succeeds |
| LinkedMaps.InsertFrontLookup | src/components/data_structures/LinkedMap.h:85-89 | after `insert(k, v)`, `k` keeps an existing front binding and otherwise maps to `v`; every other key looks up as before |
| LinkedMaps.PushFrontLookup | src/components/data_structures/LinkedMap.h:91-96 | `pushFront` changes no lookup result |
| LinkedMaps.ScopedInsertRestores | src/components/data_structures/LinkedMap.h:86-105 | `pushFront; insert(k, v); popFront` gives back the original maps, so `k` looks up as before |
| BatchStacks.Reversed | src/components/data_structures/BatchStack.h:44 | the reversal has the same length, and element `i` is element `|s| - 1 - i` of the input |
| BatchStacks.ReversedTwice | src/components/data_structures/BatchStack.h:40-44 | reversing twice gives the list back, so the popped values come out in push order |
| BatchStacks.BatchStack.constructor | src/components/data_structures/BatchStack.h:23-26 | a new stack is empty |
| BatchStacks.BatchStack.Push | src/components/data_structures/BatchStack.h:28-34 | the values are pushed in order: the new stack is the old one followed by the values, the last value on top |
| BatchStacks.BatchStack.Pop | src/components/data_structures/BatchStack.h:36-46 | `pop(n)` removes the top `n` values and returns them bottom-most first; a negative `n` pops nothing; `n` may not exceed the height; the new stack and the result are `Popped` of the old stack, so `PushThenPop` and `PopInTwoBatches` apply to the method |
| BatchStacks.BatchStack.PopOne | src/components/data_structures/BatchStack.h:48-54 | `pop()` returns the top value and removes only it |
| BatchStacks.Popped | src/components/data_structures/BatchStack.h:36-46 | what remains and what is popped put back together give the stack, and exactly `n` values are popped |
| BatchStacks.PushThenPop | src/components/data_structures/BatchStack.h:28-46 | round trip: `push(vs)` then `pop(|vs|)` returns `vs` and leaves the stack as it was |
| BatchStacks.PopInTwoBatches | src/components/data_structures/BatchStack.h:36-46 | popping `n` and then `m` values leaves the same stack as popping `m + n`, and the two batches together are the single batch; the values below are untouched |
| VariableStacks.FirstIndex | src/components/structured-language/VariableStack.cpp:9-13 | the index is that of the first occurrence of the name in the pushed list |
| VariableStacks.VariableStack.constructor | src/components/structured-language/VariableStack.h:41-43 | a new stack stores no names and its counter starts at 0 |
| VariableStacks.VariableStack.NextLocation | src/components/structured-language/VariableStack.cpp:24-29 | returns the counter and then advances it by 8, so successive results are 0, 8, 16, …; the stored slots are untouched and the slot layout stays valid |
| VariableStacks.VariableStack.Push | src/components/structured-language/VariableStack.cpp:9-13 | the slots become `PushAll` of the old slots, and the counter advances by 8 for every listed name, new or not; the slots stay distinct multiples of 8 below the counter |
| VariableStacks.VariableStack.Location | src/components/structured-language/VariableStack.cpp:15-22 | returns the stored slot of a pushed name, and for any other name the "No variable in stack: '…'." error; a returned slot is a multiple of 8 below the counter |
| VariableStacks.VariableStack.Size | src/components/structured-language/VariableStack.cpp:31-34 | the size is 8 times the number of distinct stored names |
| VariableStacks.PushAllKeepsSlotsValid | src/components/structured-language/VariableStack.cpp:9-13 | pushing keeps the slot layout: every slot is a distinct multiple of 8 below the counter |
| VariableStacks.PushAllKeepsExisting | src/components/structured-language/VariableStack.cpp:11 | a name that already has a slot keeps it (map insert does not overwrite); every pushed name gets a slot; no other name appears |
| VariableStacks.PushAllNewSlot | src/components/structured-language/VariableStack.cpp:9-13 | a new name gets the counter plus 8 times the position of its first occurrence, so names already present still use up a slot |
| Tokens.PeekAtCases | src/components/parsing/TokenSequence.cpp:10-22 | `peek` fails only before the start of a non-empty list; inside the list it gives the token itself, and at or past the end the "end" token with empty value that starts and ends at the last token's end |
| Tokens.TokenSequence.constructor | src/components/parsing/TokenSequence.cpp:5-8 | the list must be non-empty; the cursor starts at 0 |
| Tokens.TokenSequence.Peek | src/components/parsing/TokenSequence.cpp:10-22 | returns `PeekAt` of the cursor and leaves the cursor where it is |
| Tokens.TokenSequence.Consume | src/components/parsing/TokenSequence.cpp:24-28 | returns what `peek` returns and advances the cursor by exactly one, also past the end |
| Tokens.TokenSequence.SetPosition | src/components/parsing/TokenSequence.cpp:30-36 | after `setPosition(p)` the position is `p` |
| Locations.ColumnScanFindsLastNewline | src/components/text/Location.cpp:17-28 | the column `accumulate` ends with the index of the last newline scanned (or its start value when there is none) and the count of characters scanned |
| Locations.LastNewlineIsLast | src/components/text/Location.cpp:17-28 | the reference "last newline" is a newline with no newline after it, and there is none exactly when the count of newlines is 0 |
| Locations.FromTextMeaning | src/components/text/Location.cpp:11-30 | line is 1 plus the number of newlines in `text[0..positionIndex]`, the character at `positionIndex` included; column is `positionIndex + 1` minus the index of the last of those newlines (0 if none) |
| Locations.FromTextFirstLine | src/components/text/Location.cpp:15-29 | with no newline up to `positionIndex`, the location is line 1, column `positionIndex + 1` |
| Locations.ToStringInjective | src/components/text/Location.cpp:47-50 | `toString` is "line L, column C" with nothing lost: equal texts mean equal line and equal column |
| Locations.FromTextSecondLineStartsAtColumnTwo | src/components/text/Location.cpp:15-29 | as written, in "a\nb" the 'b' that starts line 2 gets column 2, while the 'a' that starts line 1 gets column 1 |
| Locations.FromTextIntendedSteps | src/components/text/Location.cpp:11-30 | intended rule: offset 0 is line 1, column 1; each character moves one column right, and a newline moves to column 1 of the next line |
| Locations.FromTextIntendedExample | src/components/text/Location.cpp:11-30 | intended rule: in "a\nb" the 'b' is at line 2, column 1 |
| Tokenization.FirstMatch | src/components/tokenization/Tokenization.cpp:16-21 | the index found is that of a pattern matching at offset 0 with no earlier pattern doing so; none is found exactly when no pattern matches at offset 0 |
| Tokenization.RecognizeTokenFirstMatch | src/components/tokenization/Tokenization.cpp:14-43 | recognition fails exactly when no pattern matches at offset 0; otherwise the token has the type and matched text of the earliest such pattern and spans 0 to the match length (keyword priority) |
| Tokenization.TokenizeUnfold | src/components/tokenization/Tokenization.cpp:58-73 | one loop turn: the recognised token is made absolute (`startPos = pos`, `endPos = pos + |value|`), emitted unless it is a comment or whitespace, and the loop goes on from its end; the match is never empty |
| Tokenization.TokenizeStops | src/components/tokenization/Tokenization.cpp:51-57 | at the end of the text the loop appends the "end" token at `|text|` and stops |
| Tokenization.TokenizeStep | src/components/tokenization/Tokenization.cpp:61-72 | the loop invariant is kept by one turn, whether the token is emitted or skipped |
| Tokenization.Tokenizer.constructor | src/components/tokenization/Tokenization.cpp:8-12 | a new tokenizer has no patterns |
| Tokenization.Tokenizer.AddRegexPattern | src/components/tokenization/Tokenization.cpp:78-88 | the pattern is registered after all earlier ones |
| Tokenization.Tokenizer.Tokenize | src/components/tokenization/Tokenization.cpp:45-76 | the loop returns exactly `TokenizeFrom` of the text from offset 0, its error included; it terminates because every match of a registered pattern at offset 0 is non-empty |
| Tokenization.WellFormedCons | src/components/tokenization/Tokenization.cpp:64-72 | an emitted token in front of a well-formed rest that starts at its end keeps the list well formed |
| Tokenization.WellFormedEarlier | src/components/tokenization/Tokenization.cpp:66-72 | a list well formed from a later offset stays well formed from an earlier one, which covers a skipped token |
| Tokenization.TokenizeFromWellFormed | src/components/tokenization/Tokenization.cpp:45-76 | a successful run from `pos` gives absolute spans with `endPos = startPos + |value|`, no comment or whitespace tokens, tokens in order without overlap, and exactly one closing "end" token, empty and at `|text|` |
| Tokenization.TokenizeWellFormed | src/components/tokenization/Tokenization.cpp:45-76 | the same facts for the whole text |
| Tokenization.TokenizeWithoutPatternsFails | src/components/tokenization/Tokenization.cpp:40-42 | with no pattern registered, a non-empty text fails to tokenize |
| Tokenization.ExampleMatcherAdvances | src/my-language/tokenizer/test/Tokenizer.test.cpp:7-27 | the example recogniser only makes non-empty matches at offset 0 |
| Tokenization.ExampleRecognizesBlank | src/components/tokenization/Tokenization.cpp:14-43 | with the example patterns, a text starting with a blank is recognised as whitespace " " at 0..1 |
| Tokenization.ExampleRecognizesParenthesis | src/components/tokenization/Tokenization.cpp:14-43 | with the example patterns, a parenthesis is recognised as a "parentheses" token of one character |
| Tokenization.ExampleRecognizesComment | src/components/tokenization/Tokenization.cpp:14-43 | with the example patterns, "//\n" is recognised as a comment at 0..3 |
| Tokenization.ExampleFrom6 | src/components/tokenization/Tokenization.cpp:50-74 | the last turn of the example run: the trailing blank is dropped and the end token at 7..7 closes the list |
| Tokenization.ExampleFrom5 | src/components/tokenization/Tokenization.cpp:50-74 | from offset 5, ")" is emitted at 5..6 |
| Tokenization.ExampleFrom4 | src/components/tokenization/Tokenization.cpp:50-74 | from offset 4, "(" is emitted at 4..5 |
| Tokenization.ExampleFrom0 | src/components/tokenization/Tokenization.cpp:50-74 | from offset 0, the comment and the first blank are dropped |
| Tokenization.TokenizeParenthesesExample | src/my-language/tokenizer/test/Tokenizer.test.cpp:7-27 | "//\n () " yields "(" at 4..5, ")" at 5..6 and the end token at 7..7 |
| FoldableNode.FoldLeftAppend | src/components/data_structures/FoldableNode.h:53-59 | folding over two lists in a row is folding over their concatenation |
| FoldableNode.FoldIsPostOrderFold | src/components/data_structures/FoldableNode.h:42-63 | `fold` is the left fold of `f` over the post-order list of the tree: children left to right, each from the previous child's accumulator, then the node |
| FoldableNode.FoldChildrenIsPostOrderFold | src/components/data_structures/FoldableNode.h:52-59 | the `for_each` over the children is the left fold over their post-order lists, one after the other |
| FoldableNode.PostOrderCoversTree | src/components/data_structures/FoldableNode.h:42-63 | the post-order list has one entry per node of the tree and ends with the root |
| FoldableNode.PostOrderAllCoversTrees | src/components/data_structures/FoldableNode.h:52-59 | the post-order list of a forest has one entry per node |
| FoldableNode.FoldCallsOncePerNode | src/components/data_structures/FoldableNode.h:42-63 | a fold that counts its calls returns the number of nodes: `f` is applied exactly once per node |
| FoldableNode.FoldLeftCounts | src/components/data_structures/FoldableNode.h:53-59 | a counting left fold adds the length of the list |
| FoldableNode.FoldLeaf | src/components/data_structures/FoldableNode.h:49-50 | on a leaf, `fold(f, acc)` is `f(acc, node)` |
| Expressions.Expression.constructor | src/components/parsing/Expression.cpp:3-6 | the node stores its type and span, and has no children and no parent |
| Expressions.Expression.SetParent | src/components/parsing/Expression.cpp:33-36 | the parent is set and the children are untouched |
| Expressions.Expression.AddChild | src/components/parsing/Expression.cpp:38-42 | the child is appended after the existing children, which keep their order, and its parent becomes the expression |
| LiteralParsers.LiteralParse | src/components/parsing/LiteralParser.cpp:10-28 | succeeds exactly when the token read has the configured type (past the end only for "end"); the node has that type, no children and spans `[position, position + 1]`; otherwise the "Expected the next token to have type …" error |
| LiteralParsers.LiteralExpressionParse | src/components/parsing/LiteralExpression.cpp:13-22 | the node has the configured type, no children and spans exactly one token from `position` |
| LiteralParsers.LiteralParseChecksLiteralExpression | src/components/parsing/LiteralParser.cpp:16-27 | inside the list, the newer parser returns the older one's node when the token has the type and the type error otherwise |
| LiteralParsers.LiteralAdvances | src/components/parsing/LiteralParser.cpp:17-22 | a literal parse always ends after the position it started at |
| UnaryParsers.UnaryParse | src/components/parsing/UnaryParser.cpp:12-36 | succeeds exactly when the token read has the operator type and the operand parses at `position + 1`; the node has the operator's type, spans from `position` to the operand's end, has the operand as its only child and records the operator token; otherwise the "Expected the operator: …" error |
| UnaryParsers.UnaryExpressionForgetsToken | src/components/parsing/UnaryExpression.cpp:12-33 | the older parser succeeds and fails on the same inputs and builds the same node except that it records no token |
| UnaryParsers.UnaryAdvances | src/components/parsing/UnaryParser.cpp:20-28 | a unary parse ends after its start whenever the operand parser does |
| UnaryParsers.UnaryStacks | src/components/parsing/test/OperatedChainParser.test.cpp:47-68 | stacked operators nest: `op op x` becomes op(op(x)), each node holding its own operator token |
| BinaryParsers.BinaryParse | src/components/parsing/BinaryParser.cpp:12-37 | on success the left operand is parsed at `position`, the token at its end has the operator type, the right operand starts one past it, and the node spans from `position` to the right operand's end with the two operands as children; a wrong token gives "Expected the operator: …" and a failing left operand its own error |
| BinaryParsers.BinaryAdvances | src/components/parsing/BinaryExpression.cpp:12-37 | with advancing operands, a binary parse advances, and its children lie in order with the operator token between them |
| MapParsers.MapParseWith | src/components/parsing/MapParser.cpp:21-25 | runs exactly the parser registered for the type, and fails for an unregistered type |
| MapParsers.MapParseAdvances | src/components/parsing/MapParser.cpp:9-25 | if every registered parser advances, so does the map parser |
| MapParsers.ExpressionMap.constructor | src/components/parsing/ExpressionMap.cpp:3-10 | the map keeps its token list and constructors, and its cursor starts at 0 |
| MapParsers.ExpressionMap.Parse | src/components/parsing/ExpressionMap.cpp:12-21 | moves its cursor to `position` and returns what `MapParse` returns there |
| MapParsers.ExpressionMap.ParseWith | src/components/parsing/ExpressionMap.cpp:23-27 | returns what the parser registered for the type returns, or the `map::at` error |
| ParentheticalParsers.ParentheticalParse | src/components/parsing/ParentheticalParser.cpp:14-51 | on success the token at `position` has the begin value, the inner parser starts after it and the token where the inner tree ends has the end value; the result wraps the inner tree, recording both tokens and covering the end token, or is the inner tree itself when stripping; a wrong begin or end token gives the "Expected a '…' but instead encountered '…'" error |
| ParentheticalParsers.ParentheticalAdvances | src/components/parsing/ParentheticalParser.cpp:27-35 | the wrapper always ends after its start, since it covers the end token |
| ParentheticalParsers.StripKeepsInner | src/components/parsing/ParentheticalParser.cpp:27-38 | both modes accept the same inputs, and the stripped result is the wrapper's only child |
| ParentheticalParsers.ParentheticalParser.constructor | src/components/parsing/ParentheticalParser.cpp:5-12 | the parser keeps its type, begin and end values and inner parser, with stripping off |
| ParentheticalParsers.ParentheticalParser.SetStripParentheses | src/components/parsing/ParentheticalParser.cpp:53-56 | the stripping flag is set to the given value |
| ConflictParsers.Outcome | src/components/parsing/ConflictParser.cpp:12-16 | a successful candidate keeps its tree; a failed one becomes the placeholder "none" ending at -1 |
| ConflictParsers.Longest | src/components/parsing/ConflictParser.cpp:19-25 | the chosen candidate ends last of all, and every candidate before it ends strictly earlier (`max_element` keeps the first maximum) |
| ConflictParsers.Outcomes | src/components/parsing/ConflictParser.cpp:10-17 | one outcome per candidate, in candidate order |
| ConflictParsers.ConflictParse | src/components/parsing/ConflictParser.cpp:8-32 | a result is the tree of some candidate, and no successful candidate ends after it |
| ConflictParsers.ConflictPrefersEarliest | src/components/parsing/ConflictParser.cpp:19-25 | on a tie the earliest candidate wins: every successful candidate before the chosen one ends strictly earlier |
| ConflictParsers.ConflictFailsIffAllFail | src/components/parsing/ConflictParser.cpp:27-29 | when successful trees end at 0 or later, the parser fails exactly when every candidate fails |
| ConflictParsers.ConflictAdvances | src/components/parsing/ConflictParser.cpp:8-32 | the conflict parser advances when all its candidates do |
| ChainParsers.SkipSeparators | src/components/parsing/ChainParser.cpp:41-44 | the inner loop stops at the first token from the cursor on that is not a separator, having crossed only separator tokens inside the list; with a non-empty separator it always stops |
| ChainParsers.Openness | src/components/parsing/ChainParser.cpp:48-53 | "open" exactly when the token before the final cursor is not the separator, "closed" when it is or the chain ends at position 0, and an error when the cursor is past the list |
| ChainParsers.ElementsProgress | src/components/parsing/ChainParser.cpp:24-46 | the outer loop stops exactly where the element parser does not apply, keeps the elements read before, and each element read moves the cursor forward by at least one token within the list |
| ChainParsers.ChainParseShape | src/components/parsing/ChainParser.cpp:14-67 | a chain node has the chain's type, spans from `position` to where the elements stop, has at most one child per token covered, records no tokens and has the openness of its last token as its one sub-type |
| ChainParsers.ChainZeroElements | src/components/parsing/ChainParser.cpp:24-25 | with no element at `position`, the chain is empty and spans `[position, position]` |
| ChainParsers.ElementsContinue | src/components/parsing/ChainParser.cpp:25-45 | from any cursor, an element followed by a separator, or by anything where the rule makes it optional, is kept and the loop continues after the skipped separators |
| ChainParsers.ElementsMissingSeparator | src/components/parsing/ChainParser.cpp:34-39 | from any cursor, an element followed by a non-separator where the rule does not make it optional ends the loop with the "Expected a separator character" error naming the separator and the token found |
| ChainParsers.ElementsNeverStall | src/components/parsing/ChainParser.cpp:25-46 | from any cursor inside the tokens, when the separator is non-empty and every element ends after its start and within the tokens, the outer loop never hits the "no progress" stand-in |
| ChainParsers.ChainNeverStalls | src/components/parsing/ChainParser.cpp:14-67 | under the same conditions, a chain parsed from inside the tokens never ends in the "no progress" stand-in, so the model's result is the source's |
| ChainParsers.ChainMissingSeparator | src/components/parsing/ChainParser.cpp:34-39 | a missing separator after the first element fails the whole chain unless the rule makes it optional |
| ChainParsers.ParseChain | src/components/parsing/ChainParser.cpp:14-67 | the two loops on a cursor return exactly `ChainParse`, errors included |
| ListParsers.EndRule | src/components/parsing/ListParser.cpp:16-18 | inside the list the separator is optional exactly when the token is the end token; outside the list `at` throws |
| ListParsers.ListChain | src/components/parsing/ListParser.cpp:11-20 | the inner chain has the list's type, separator and element parser |
| ListParsers.ListIsChainInBrackets | src/components/parsing/ListParser.cpp:22-33 | a list parses exactly when the begin token is there, the chain after it parses and the end token follows where the chain stops; the result is that chain extended over the end token |
| LanguageChainParser.BraceRuleCases | src/my-language/parser/ChainParser.cpp:10-23 | inside the list a `;` is optional when the current or the previous token is "}"; at 0 only the current token counts, at the end only the previous; on an empty list at 0 it is required; it fails exactly for positions before 0 or more than one past the end |
| LanguageChainParser.StatementChain | src/my-language/parser/ChainParser.cpp:3-31 | the statement chain has type "chain", separator ";" and the brace rule, and `parse` delegates to it |
| LanguageChainParser.SeparatorOptionalAfterBrace | src/my-language/parser/ChainParser.cpp:10-23 | a statement right after a "}" needs no `;` |
| ModuleParsers.FunctionDefinitionRule | src/my-language/parser/ModuleParser.cpp:17-19 | inside a function definition the separator is never optional |
| ModuleParsers.ModuleRule | src/my-language/parser/ModuleParser.cpp:28-33 | at module level a `;` is optional only right after a "}", required at position 0, and one past the end `at` throws |
| ModuleParsers.FunctionDefinitionChain | src/my-language/parser/ModuleParser.cpp:12-21 | the function body chain has type "function-definition" and separator ";" |
| ModuleParsers.ModuleChain | src/my-language/parser/ModuleParser.cpp:23-36 | the module chain has type "module" and separator ";", and `parse` delegates to it |
| ModuleParsers.FunctionBodyNeedsSeparators | src/my-language/parser/ModuleParser.cpp:12-21 | in a function body, a statement whose next token is not `;` makes the chain fail |
| SkeletonParsers.WalkCounts | src/components/parsing/SkeletonParser.cpp:18-35 | only matched token elements move the cursor, by one each, and every registered expression element adds exactly one child |
| SkeletonParsers.WalkWithoutTokensParsesInPlace | src/components/parsing/SkeletonParser.cpp:29-33 | an expression element parses at the cursor without moving it, so without token elements every child is parsed at the start position |
| SkeletonParsers.SkippedElementIrrelevant | src/components/parsing/SkeletonParser.cpp:24-33 | an element that is neither a token nor an expression element (such as "trail") has no effect |
| SkeletonParsers.ParseSkeleton | src/components/parsing/SkeletonParser.cpp:11-47 | the pass over the pattern on a cursor returns exactly `SkeletonParse`: the node of the configured type from `position` to the final cursor, with the parsed sub-expressions as children |
| OperatedChainParsers.PrecedenceLevel | src/components/parsing/OperatedChainParser.cpp:67-81 | the level registered for the node's type, failing that the one for its root token's value, failing that -1 |
| OperatedChainParsers.LeftSpine | src/components/parsing/OperatedChainParser.cpp:92-99 | the path of first children the search walks: it starts at the node and ends at a leaf |
| OperatedChainParsers.FirstHigherPrecedenceLeftChild | src/components/parsing/OperatedChainParser.cpp:83-101 | the node returned is above the given precedence, or it is a leaf |
| OperatedChainParsers.FirstHigherOnSpine | src/components/parsing/OperatedChainParser.cpp:83-101 | the node returned lies on the leftmost spine, and every spine node above it is at or below the given precedence |
| OperatedChainParsers.NoHigherGivesLeftmostLeaf | src/components/parsing/OperatedChainParser.cpp:94-99 | when no spine node is above the precedence, the search ends at the leftmost leaf |
| OperatedChainParsers.LeftSpineLinks | src/components/parsing/OperatedChainParser.cpp:92-93 | each spine node's first child is the next spine node |
| OperatedChainParsers.OperatedParse | src/components/parsing/OperatedChainParser.cpp:16-65 | a failing first operand fails the parse; a first operand not followed by a registered non-unary operator is the result; when a registered operator follows the first operand, that operator's parse from the same start is the result, its error included, unless a further operator follows it; a failed look-ahead ends the parse with its error; a different successful result is always such an operator parse; when a further operator follows, the outcome is the rewrite of that operator expression, restarting where its right-most child starts, or the no-right-most-child error when it has no children |
| OperatedChainParsers.OperatedChainParser.constructor | src/components/parsing/OperatedChainParser.cpp:5-14 | stores the operand parser, the non-unary operator parsers and the precedence levels |
| OperatedChainParsers.OperatedChainParser.SetPrecedenceLevels | src/components/parsing/OperatedChainParser.cpp:103-106 | replaces the whole precedence map |
| OperatedChainParsers.OperatedChainExample | src/components/parsing/test/OperatedChainParser.test.cpp:30-45 | `abc AND efg` parses to AND over the two identifiers |
| ExpressionChains.ExpressionChainParse | src/components/parsing/ExpressionChain.cpp:13-62 | a successful chain always starts with a successful first expression |
| ExpressionChains.NoOperatorGivesFirst | src/components/parsing/ExpressionChain.cpp:24-28 | when the token after the first expression has no constructor, the chain is the first expression |
| ExpressionChains.NonOperatorFails | src/components/parsing/ExpressionChain.cpp:53-58 | a token with a constructor that is not a non-unary operator fails the chain with "The token at position N was expected to be a binary operator." |
| ExpressionChains.OperatorNestsRight | src/components/parsing/ExpressionChain.cpp:29-52 | after an operator, the result is the operator's expression parsed from the chain's start, with its right-most child replaced by the rest of the chain parsed from where that child starts; type, span and the other children are kept |
| ExpressionChains.OperatorStep | src/components/parsing/ExpressionChain.cpp:33-51 | conversely, an operator expression and a rest that both parse give the operator's expression with the rest as its right-most child |
| ExpressionChains.OperatorsProgressNeverStall | src/components/parsing/ExpressionChain.cpp:46-47 | when each operator's right-most child starts after the operator, the recursion always moves forward and the model's no-progress error never appears |
| ExpressionChains.SimpleBinaryExample | src/components/parsing/test/ExpressionChain.test.cpp:55-71 | `abc AND efg` gives AND over the two identifiers |
| ExpressionChains.ChainNestsRightExample | src/components/parsing/ExpressionChain.cpp:39-51 | `a AND b AND c` nests to the right as AND(a, AND(b, c)), and the outer node keeps the first AND's span |
| ExpressionChains.DoubleNotOperand | src/components/parsing/test/ExpressionChain.test.cpp:73-82 | each operand of `NOT NOT abc AND NOT NOT efg` is read as two stacked NOTs over an identifier |
| ExpressionChains.UnaryAndBinaryExample | src/components/parsing/test/ExpressionChain.test.cpp:73-96 | `NOT NOT abc AND NOT NOT efg` gives AND(NOT(NOT(abc)), NOT(NOT(efg))) |
| ExpressionFactories.CreateFunctionParameter | src/my-language/parser/ExpressionFactory.cpp:7-16 | a childless "function-parameter" node at (-1, -1) whose only sub-types are the given name and explicit type |
| ExpressionFactories.CountReturns | src/my-language/parser/ExpressionFactory.cpp:49-52 | the number of return statements never exceeds the number of statements |
| ExpressionFactories.CountReturnsAppend | src/my-language/parser/ExpressionFactory.cpp:50-52 | counting returns distributes over concatenation of statement lists |
| ExpressionFactories.CountReturnsZero | src/my-language/parser/ExpressionFactory.cpp:50-52 | the count is zero exactly when no statement is a return |
| ExpressionFactories.FunctionNodeParts | src/my-language/parser/ExpressionFactory.cpp:25-53 | the function node gives back its name, return type, parameters in order and statements in order, under a parameter-list and a definition child; without returns its returns-amount is "0" |
| ExpressionFactories.ReturnsAmountDistinguishes | src/my-language/parser/ExpressionFactory.cpp:53 | different numbers of return statements give different returns-amount texts |
| ExpressionFactories.CreateFunction | src/my-language/parser/ExpressionFactory.cpp:18-56 | filling the two lists child by child and counting the returns over the definition's children builds exactly `FunctionNode` |
| Decimal.NatToStringShape | src/my-language/ir-generator/IRCommandFactory.cpp:56 | the decimal text of a number is a non-empty run of digits, with two or more digits exactly from 10 on |
| Decimal.NatToStringInjective | src/my-language/parser/ExpressionFactory.cpp:53 | different non-negative numbers have different decimal texts |
| Decimal.IntToStringSign | src/my-language/assembly-generator/X86AssemblyGenerator.cpp:17 | the text of an integer starts with a minus sign exactly when the integer is negative |
| Decimal.IntToStringInjective | src/components/text/Location.cpp:49 | different integers have different decimal texts |
| IRCommands.Join | src/my-language/ir-generator/IRCommand.cpp:39 | reference joining with ", ": no items give the empty text and one item gives itself |
| IRCommands.Render | src/my-language/ir-generator/IRCommand.cpp:33-50 | reference rendering of a parameter: a variable as its name, a list as its names joined with ", " in square brackets |
| IRCommands.FoldListContinues | src/my-language/ir-generator/IRCommand.cpp:45-49 | once past the first variable, the inner fold appends each variable after ", " |
| IRCommands.FoldListJoins | src/my-language/ir-generator/IRCommand.cpp:40-50 | the inner fold over a list of variables equals the reference join with ", " |
| IRCommands.RenderFoldedIsRender | src/my-language/ir-generator/IRCommand.cpp:33-51 | the fold renders every parameter exactly as the reference does |
| IRCommands.FoldParamsContinues | src/my-language/ir-generator/IRCommand.cpp:29-52 | once past the first parameter, the outer fold appends each rendered parameter after ", " |
| IRCommands.FoldParamsJoins | src/my-language/ir-generator/IRCommand.cpp:24-53 | the outer fold equals the reference join of the rendered parameters |
| IRCommands.ToStringJoins | src/my-language/ir-generator/IRCommand.cpp:21-58 | `toString` is the type followed by the rendered parameters joined with ", " in parentheses, and "type()" without parameters |
| IRCommands.FoldListExample | src/my-language/ir-generator/IRCommand.cpp:40-50 | the list fold over x1 and x2 gives "x1, x2" |
| IRCommands.CallParamsFold | src/my-language/ir-generator/IRCommand.cpp:24-53 | the parameters f, [x1, x2], x3 fold to "f, [x1, x2], x3" |
| IRCommands.ToStringCallExample | src/my-language/ir-generator/IRCommand.cpp:21-58 | a Call with those parameters renders as "Call(f, [x1, x2], x3)" |
| IRCommands.ToStringEmptyListExample | src/my-language/ir-generator/IRCommand.cpp:38-50 | an empty list parameter renders as "[]" |
| IRCommandFactories.CreateExpression | src/my-language/ir-generator/IRCommandFactory.cpp:8-13 | a childless node of the given type at (-1, -1) whose only sub-type is the given attribute and value |
| IRCommandFactories.VariableListRoundTrip | src/my-language/ir-generator/IRCommandFactory.cpp:15-23 | a variable list gives back exactly the names it was built from, in order |
| IRCommandFactories.CreateVariableList | src/my-language/ir-generator/IRCommandFactory.cpp:15-23 | adding one "variable" child per name builds exactly the variable-list node |
| IRCommandFactories.CreateLoadIntConst | src/my-language/ir-generator/IRCommandFactory.cpp:25-35 | an "irCommand" whose command is LoadIntConst, with a number child holding the value and then a variable child naming the target |
| IRCommandFactories.CreateCall | src/my-language/ir-generator/IRCommandFactory.cpp:37-52 | an "irCommand" whose command is Call, with the function name, a variable list giving back the arguments, and the output variable as its three children |
| IRCommandFactories.VariableName | src/my-language/ir-generator/IRCommandFactory.cpp:56 | a variable name is "x" followed by at least one character |
| IRCommandFactories.VariableNamesDistinct | src/my-language/ir-generator/IRCommandFactory.cpp:54-59 | different counter values give different variable names |
| IRCommandFactories.IRCommandFactory.constructor | src/my-language/ir-generator/IRCommandFactory.h:15 | the counter starts at 1 |
| IRCommandFactories.IRCommandFactory.NextVariable | src/my-language/ir-generator/IRCommandFactory.cpp:54-59 | returns the name of the current counter value and moves the counter on by one |
| IRGenerators.FreshLoadsAppend | src/my-language/ir-generator/IRGenerator.cpp:44-52 | two runs of consecutive fresh loads, the second starting where the first ends, make one run |
| IRGenerators.GenerateTreeLoadsFresh | src/my-language/ir-generator/IRGenerator.cpp:12-53 | a generated tree's commands are LoadIntConsts into the consecutive variables numbered from the starting counter, in post-order, and the counter ends one past the last |
| IRGenerators.GenerateForestLoadsFresh | src/my-language/ir-generator/IRGenerator.cpp:40-53 | the same for a list of sibling trees generated left to right |
| IRGenerators.DistinctLoads | src/my-language/ir-generator/IRCommandFactory.cpp:54-59 | consecutive fresh loads never load the same variable twice |
| IRGenerators.GeneratedVariablesDistinct | src/my-language/ir-generator/IRGenerator.cpp:30-38 | no two commands of a generated program load the same variable |
| IRGenerators.GenerateTreeFailsIff | src/my-language/ir-generator/IRGenerator.cpp:17-24 | generation fails exactly when some node of the tree has no registered generator, or is a number without its root token |
| IRGenerators.GenerateForestFailsIff | src/my-language/ir-generator/IRGenerator.cpp:17-24 | the same for a list of sibling trees |
| IRGenerators.IRGenerator.constructor | src/my-language/ir-generator/IRGenerator.cpp:5-10 | a generator with a fresh command factory whose counter is 1 |
| IRGenerators.IRGenerator.GenerateNumber | src/my-language/ir-generator/IRGenerator.cpp:30-38 | one LoadIntConst of the root token's value into the next fresh variable, which is also the result's variable; the counter moves on by one |
| IRGenerators.IRGenerator.GenerateChain | src/my-language/ir-generator/IRGenerator.cpp:40-53 | no variable, and the children's commands one after the other in order |
| IRGenerators.IRGenerator.GenerateNode | src/my-language/ir-generator/IRGenerator.cpp:17-25 | generating a node, children first, gives exactly `GenerateTree` from the current counter, and leaves the counter where it says |
| IRGenerators.IRGenerator.GenerateChildren | src/my-language/ir-generator/IRGenerator.h:31-32 | generating the children left to right gives exactly `GenerateForest` from the current counter |
| IRGenerators.IRGenerator.Generate | src/my-language/ir-generator/IRGenerator.cpp:12-28 | the commands of the whole tree, or the error, exactly as `GenerateTree` gives them |
| FunctionTypes.RenderedAsWritten | src/my-language/type-checker/FunctionType.cpp:13-23 | one text per parameter type |
| FunctionTypes.FoldAsWrittenConcatenates | src/my-language/type-checker/FunctionType.cpp:12-23 | as written, the fold runs the parameter texts together with no separator |
| FunctionTypes.ToStringAsWrittenRunsTogether | src/my-language/type-checker/FunctionType.cpp:8-26 | as written, the text is "(", the parameter texts run together, ") => " and the return type; "() => " and the return type without parameters |
| FunctionTypes.AsWrittenTwoParameters | src/my-language/type-checker/FunctionType.cpp:8-26 | as written, (int, bool) => int is written "(intbool) => int" |
| FunctionTypes.AsWrittenOneParameter | src/my-language/type-checker/FunctionType.cpp:8-26 | as written, a single parameter type named intbool also gives "(intbool) => int" |
| FunctionTypes.AsWrittenMergesParameters | src/my-language/type-checker/FunctionType.cpp:17-22 | two different function types get the same text as written |
| FunctionTypes.RenderedIntended | src/my-language/type-checker/FunctionType.cpp:13-23 | one text per parameter type |
| FunctionTypes.FoldIntendedContinues | src/my-language/type-checker/FunctionType.cpp:18-21 | with the flag cleared, each later parameter text follows ", " |
| FunctionTypes.ToStringIntendedJoins | src/my-language/type-checker/FunctionType.cpp:8-26 | as intended, the parameter texts are joined with ", " inside the parentheses |
| FunctionTypes.IntendedSeparatesParameters | src/my-language/type-checker/FunctionType.cpp:8-26 | as intended, (int, bool) => int is written "(int, bool) => int" |
| FunctionTypes.IntendedKeepsSingleParameter | src/my-language/type-checker/FunctionType.cpp:8-26 | as intended, the single intbool parameter keeps the text "(intbool) => int" |
| FunctionTypes.IntendedDistinguishesParameters | src/my-language/type-checker/FunctionType.cpp:17-22 | as intended, the two types merged as written get different texts |
| FunctionTypes.AgreeOnOneParameter | src/my-language/type-checker/FunctionType.cpp:17-22 | with at most one parameter and plain types, the written and intended texts agree |
| AssemblyGenerators.AssembleOne | src/my-language/assembly-generator/AssemblyGenerator.cpp:15-22 | a command whose type has no registered generator fails with "No assembly generator found command with type: '...'."; otherwise the registered generator's output |
| AssemblyGenerators.AssembleConcatenates | src/my-language/assembly-generator/AssemblyGenerator.cpp:11-23 | when every command can be assembled, the fold appends their texts in command order |
| AssemblyGenerators.AssembleFirstFailure | src/my-language/assembly-generator/AssemblyGenerator.cpp:16-21 | the first command that cannot be assembled decides the error |
| AssemblyGenerators.AssembleFailsIff | src/my-language/assembly-generator/AssemblyGenerator.cpp:11-23 | the fold fails exactly when some command cannot be assembled |
| AssemblyGenerators.AssemblyGenerator.constructor | src/my-language/assembly-generator/AssemblyGenerator.cpp:4-7 | empty prelude, empty indent and no generators |
| AssemblyGenerators.AssemblyGenerator.Generate | src/my-language/assembly-generator/AssemblyGenerator.cpp:9-24 | no commands give the prelude alone; the output always starts with the prelude; it fails exactly when some command cannot be assembled |
| AssemblyGenerators.AssemblyGenerator.Prelude | src/my-language/assembly-generator/AssemblyGenerator.cpp:26-29 | returns the prelude |
| AssemblyGenerators.AssemblyGenerator.Indent | src/my-language/assembly-generator/AssemblyGenerator.cpp:31-34 | returns the indent |
| AssemblyGenerators.AssemblyGenerator.SetPrelude | src/my-language/assembly-generator/AssemblyGenerator.cpp:41-44 | the prelude becomes the given text and nothing else changes |
| AssemblyGenerators.AssemblyGenerator.SetIndent | src/my-language/assembly-generator/AssemblyGenerator.cpp:46-49 | the indent becomes the given text and nothing else changes |
| AssemblyGenerators.AssemblyGenerator.Register | src/my-language/assembly-generator/AssemblyGenerator.cpp:36-39 | inserting into the registry adds the generator for a new type and keeps an existing one, as map insertion does |
| X86AssemblyGenerators.FrameSetupText | src/my-language/assembly-generator/X86AssemblyGenerator.cpp:35-37 | the end of the prelude is `main:`, then `pushq %rbp` and `movq %rsp, %rbp` on indented lines |
| X86AssemblyGenerators.PreludeEndsWithFrameSetup | src/my-language/assembly-generator/X86AssemblyGenerator.cpp:27-38 | the prelude ends with that frame set-up |
| X86AssemblyGenerators.LoadIntConst | src/my-language/assembly-generator/X86AssemblyGenerator.cpp:8-19 | the emitted line needs a value child and a name child whose variable the stack holds, and moves the value to 8 bytes past that variable's stack location below the frame pointer |
| X86AssemblyGenerators.LoadIntConstOfFactory | src/my-language/assembly-generator/X86AssemblyGenerator.cpp:13-18 | on a command the factory builds, the move line when the stack holds the variable, and the stack's error when it does not |
| X86AssemblyGenerators.LoadIntConstBelowFramePointer | src/my-language/assembly-generator/X86AssemblyGenerator.cpp:15-17 | with valid stack slots the offset is a positive multiple of 8, so the text never holds a doubled minus sign |
| X86AssemblyGenerators.StackLoadBelowFramePointer | src/my-language/assembly-generator/X86AssemblyGenerator.cpp:15-17 | with the slots of a `VariableStack` that keeps its invariant, the emitted move targets a positive multiple of 8 below the frame pointer |
| X86AssemblyGenerators.DistinctVariablesDistinctLines | src/my-language/assembly-generator/X86AssemblyGenerator.cpp:15-17 | with valid stack slots, two different variables are moved to different slots |
| X86AssemblyGenerators.Registry | src/my-language/assembly-generator/X86AssemblyGenerator.cpp:41 | LoadIntConst is the only registered command type |
| X86AssemblyGenerators.OnlyLoadIntConst | src/my-language/assembly-generator/X86AssemblyGenerator.cpp:41 | any other command type fails with the no-generator error |
| X86AssemblyGenerators.X86AssemblyGenerator.constructor | src/my-language/assembly-generator/X86AssemblyGenerator.cpp:22-42 | the inner generator gets the four-space indent, the prelude and the LoadIntConst registry |
| X86AssemblyGenerators.X86AssemblyGenerator.Generate | src/my-language/assembly-generator/X86AssemblyGenerator.cpp:44-47 | the output starts with the prelude, and it is produced exactly when every command is a LoadIntConst that can be emitted |
| X86AssemblyGenerators.NumberIRExample | src/my-language/assembly-generator/test/X86AssemblyGenerator.test.cpp:17-25 | the program `1` becomes one LoadIntConst of 1 into x1 |
| X86AssemblyGenerators.MoveOneLine | src/my-language/assembly-generator/X86AssemblyGenerator.cpp:13-18 | moving 1 into the first slot is `    movl $1, -8(%rbp)` |
| X86AssemblyGenerators.LoadOneExample | src/my-language/assembly-generator/test/X86AssemblyGenerator.test.cpp:17-25 | with x1 in the first slot, that command becomes the prelude followed by `    movl $1, -8(%rbp)` |
| EndToEnd.Split | src/test/end_to_end.py:11 | splitting always yields at least one piece |
| EndToEnd.SplitJoin | src/test/end_to_end.py:11 | splitting loses nothing: the pieces joined with the delimiter give the text back |
| EndToEnd.SplitWithoutSeparator | src/test/end_to_end.py:11 | a text without the delimiter is a single piece |
| EndToEnd.SplitAtFirst | src/test/end_to_end.py:11 | the first occurrence of the delimiter ends the first piece and the rest is split after it |
| EndToEnd.SplitLongerWithSeparator | src/test/end_to_end.py:11 | a text holding the delimiter splits into at least two pieces |
| EndToEnd.UnpackRoundTrip | src/test/end_to_end.py:11 | a case that unpacks is its program, the delimiter and its expected output, with nothing trimmed |
| EndToEnd.UnpackWithoutDelimiter | src/test/end_to_end.py:11 | a case text without the delimiter raises the not-enough-values error |
| EndToEnd.UnpackOfCase | src/test/end_to_end.py:11 | a program and expected output joined by the delimiter unpack to exactly themselves when the delimiter occurs only there |
| EndToEnd.UnpackTwoDelimiters | src/test/end_to_end.py:11 | a case with a second delimiter raises the too-many-values error |
| EndToEnd.Judge | src/test/end_to_end.py:22-26 | a case passes exactly when the printed output equals the expected text |
| EndToEnd.VerdictsDistinguishable | src/test/end_to_end.py:23-26 | a pass line and a fail line never coincide |
| EndToEnd.MissingNewlineFails | src/test/end_to_end.py:22 | an output lacking only the expected text's final newline fails: no normalisation |
| EndToEnd.RunCases | src/test/end_to_end.py:7-26 | at most one printed verdict per listed entry |
| EndToEnd.Run | src/test/end_to_end.py:3-26 | the loop over the listing prints and aborts exactly as `RunCases` says |
| EndToEnd.WithoutScratch | src/test/end_to_end.py:13 | the listing without the scratch file: every remaining entry was listed and is not the scratch file, and every other listed entry remains |
| EndToEnd.CasesComplete | src/test/end_to_end.py:7-26 | on well-formed cases the run completes with one verdict per case, in listing order, each a pass exactly when the program prints its expected text |
| EndToEnd.IntendedRunCompletes | src/test/end_to_end.py:5-13 | leaving the scratch file out, a folder of well-formed cases runs to the end with one verdict per case |
| EndToEnd.ScratchEntryAborts | src/test/end_to_end.py:5-14 | as written, a folder holding a previous run's scratch file ends the run with the not-enough-values error |
| EndToEnd.ScratchEntrySkipped | src/test/end_to_end.py:5-14 | as intended, the same folder runs its one case to the end |

## Left out

- I/O in src/test/end_to_end.py is not modelled: the directory listing, file reads and writes, and running the compiler and program. The listing is a parameter, in the order the operating system gives it. Compiling and running a program is a parameter from program text to printed output. The compiler's own output file, which it writes into the case folder, is not modelled.
- src/run_assembler.py is not part of this model: it only reads a file and calls an assembler library that is not shown.
- The regular-expression patterns (RegexPattern.cpp, Tokenizer.cpp) are not modelled. A pattern is a name plus a regex string, and the search is a matcher function that gives the offset of the first match anywhere in its input together with the matched text, or offset -1 when there is none.
- Tokenization.Tokenizer.Tokenize: the source's `tokenize` never ends when a registered pattern can match the empty string at offset 0 (a regex such as "\\s*"). The model requires that no registered pattern does; none of the patterns src/my-language/tokenizer/Tokenizer.cpp:7-11 registers can.
- OperatedChainParsers.OperatedParse and ExpressionChains.ExpressionChainParse: an operator expression without children makes `children.end() - 1` undefined behaviour in the source (OperatedChainParser.cpp:36, ExpressionChain.cpp:46). The "Expression: no right-most child" error is the model's own.
- Other files are left out: the type checker, whose context lacks the fields its code uses; the stub files (BlockParser, the components' ExpressionFactory, TIRCommand, TrailingParser); and the drivers `main.cpp` and `manual.cpp`.
- The parsers that need Expression accessors missing from the shown header are left out: FunctionParser, FunctionCallParser, FunctionParameterParser, VariableDeclarationParser, TypeParser, WhileParser and ModuleIRGenerator. So are IfParser and Parser.cpp, which only configure other parsers.
- OperatedChainParsers.OperatedParse: the branch where a second operator follows rebuilds the tree through `replaceAsParent` and `earliestAncestor`, which are not shown. The model returns the operator expression and the position where the rest would be parsed, and builds no tree for that branch.
- Parent pointers and shared ownership are modelled only in the `Expression` class, where `addChild` and `setParent` are the subject. Elsewhere trees are immutable values, so aliasing between trees is not captured.
- Tokens carry no `Location` fields. Error messages that append a location or token text (the conflict parser's "at <location>", the parenthetical and chain messages) keep only their fixed part.
- Exceptions from the standard library become `Err` with a message close to the library's (`vector::at`, `map::at`, `basic_string::substr`, Python's `ValueError` for unpacking). The exact wording is implementation-defined.
- ChainParsers.ChainParse and ExpressionChains.ExpressionChainParse: the "no progress" error stands in for the source's behaviour in three cases. (1) The parse would loop or recurse forever without moving forward: a chain element ending at the cursor with no separator after it where the rule makes the separator optional; an operator's right-most child starting exactly at the chain's start; or an empty separator matching the end token. A chain element ending at the cursor is also reported when the source would go on: when separators follow it, the source skips them and carries on; when no separator follows and the rule requires one, the source raises the "Expected a separator character" error. (2) An element ends before the cursor, or an operator's right-most child starts before the chain's start: the source moves back and carries on, and may still finish with a node. (3) An element ends, or a right-most child starts, more than one past the end of the tokens: the source reads the synthetic end token there and carries on. The model does not follow the source in cases (2) and (3), nor for an element ending at the cursor outside the looping sub-case of (1). `ChainParsers.ChainNeverStalls` and `ExpressionChains.OperatorsProgressNeverStall` state the conditions under which none of the three arises.
- ExpressionChains.UnaryAndBinaryExample: the source's expression map refers to itself. A map value cannot contain itself, so the example builds its constructors in layers, two NOTs deep.
- Expressions.RootTokenValue: the `rootToken` accessor is not shown. The model takes the first token a node records. The IR generator's number rule on a node without tokens becomes an error.
- IRGenerators.GeneratedVariablesDistinct: requires number nodes to be leaves, as every parser builds them. A number node with children would use up counter values for commands that `generateNumber` then drops.
- IRGenerators.IRGenerator.Generate: the fold passes each node its children's results, as the generator type in IRGenerator.h:31-32 describes. The accumulator that `FoldableNode` itself threads is not used there.
- FunctionTypes: a plain type's own `toString` is not shown, so a plain type is modelled by its given text. `parameterTypes()` and `returnType()` are the datatype's fields.
- AssemblyGenerators.CommandType: the generator reads `command.type()`, but the IR generator produces tree nodes, not `IRCommand` values. The model takes a command's type from the "command" sub-type the factory records.
- X86AssemblyGenerators.X86AssemblyGenerator.constructor: the source registers a generator that takes a `VariableStack` but never says which stack. The model passes the stack's locations to the constructor.
- IRCommands: `type()` and `params()` are the datatype's fields.
- BatchStacks and LinkedMaps: accessors that only return a field are the class's fields.
- Locations.FromText: with `positionIndex` equal to the text's length, the source's scan reads one character past the string (the terminating NUL, which is not a newline). The model scans only up to the end of the text, which gives the same line and column.
- EndToEnd.CasesComplete: the compile at src/test/end_to_end.py:16 is started with `os.popen` and its output is never read or waited for, so line 18 may run `./program.out` before the compile has finished. The compiler also writes `_program._program.s`, and nothing shown builds `program.out` from it. The model's `run` maps program text straight to printed output, so it assumes that output depends only on the program text. `_program._program.s` is a second scratch entry in the case folder: on a re-run it is listed too, and unpacking it also raises.
- Tokens.TokenSequence.constructor: the source asserts that the token list is non-empty. The model requires it of the class, and `PeekAt` on an empty list returns an error.

## Findings

| source | as written | input that shows it | evidently intended | confidence | as-written member | corrected member |
|---|---|---|---|---|---|---|
| src/components/text/Location.cpp:15-29 | line and column count the character at the position itself and measure the column from the newline's own index | offset 2 of "a\nb": the 'b' that starts line 2 gets column 2, while 'a' at the start of line 1 gets column 1 | the first character of every line is at column 1 | not executed | Locations.FromTextSecondLineStartsAtColumnTwo | Locations.FromTextIntendedExample |
| src/my-language/type-checker/FunctionType.cpp:17-22 | `first = false` follows the `return`, so the ", " separator is never added | (int, bool) => int and (intbool) => int are both written "(intbool) => int" | parameter types separated by ", " | not executed | FunctionTypes.AsWrittenMergesParameters | FunctionTypes.IntendedDistinguishesParameters |
| src/test/end_to_end.py:5-14 | every entry of the case folder is read as a case, including the `_program.mylang` file the run itself writes there | re-running on a folder that still holds the scratch file from an earlier run: that entry has no delimiter, the unpacking raises, and the run stops | the scratch file is not a case | not executed | EndToEnd.ScratchEntryAborts | EndToEnd.ScratchEntrySkipped |
