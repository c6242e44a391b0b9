/** What the parser combinators share: a parser is a function from a token
    list and a start position to a parse tree or an error (the `parse`
    methods of src/components/parsing, whose exceptions become `Err`). */
module Parsing {
  import opened Wrappers
  import opened Tokens
  import opened Expressions

  type Parser = (seq<Token>, int) -> Result<Node>

  /** A parser advances on `tokens` when every tree it returns ends after the
      position it started at. */
  ghost predicate Advances(parse: Parser, tokens: seq<Token>)
  {
    forall p :: parse(tokens, p).Ok? ==> p < parse(tokens, p).value.endPos
  }

  /** The same, for trees that also end within the token list. */
  ghost predicate AdvancesWithin(parse: Parser, tokens: seq<Token>)
  {
    forall p :: parse(tokens, p).Ok? ==> p < parse(tokens, p).value.endPos <= |tokens|
  }
}
