/** `LiteralParser` (src/components/parsing/LiteralParser.cpp) and its older
    twin `LiteralExpression` (src/components/parsing/LiteralExpression.cpp):
    a single token of a given type. */
module LiteralParsers {
  import opened Wrappers
  import opened Tokens
  import opened Expressions
  import opened Parsing

  /** `LiteralParser::parse`: consumes one token and accepts it when its type
      is the configured one. Past the last token the cursor reads the
      synthetic "end" token, so only a parser for "end" succeeds there. */
  function LiteralParse(kind: string, tokens: seq<Token>, position: int): (r: Result<Node>)
    ensures r.Ok? <==>
      |tokens| > 0 && position >= 0 &&
      (if position < |tokens| then tokens[position].kind == kind else kind == "end")
    ensures r.Ok? ==> r.value == Leaf(kind, position, position + 1)
    ensures 0 <= position < |tokens| && tokens[position].kind != kind ==>
      r == Err("Expected the next token to have type " + kind)
  {
    var token :- PeekAt(tokens, position);
    if token.kind == kind then Ok(Leaf(kind, position, position + 1))
    else Err("Expected the next token to have type " + kind)
  }

  /** `LiteralExpression::parse`: builds the one-token node without looking
      at the token. */
  function LiteralExpressionParse(kind: string, position: int): (n: Node)
    ensures n.kind == kind && n.children == []
    ensures n.startPos == position && n.endPos - n.startPos == 1
  {
    Leaf(kind, position, position + 1)
  }

  /** The newer parser only adds the type check: whenever it succeeds it
      returns what the older one returns, and it succeeds exactly on the
      positions whose token has the type. */
  lemma LiteralParseChecksLiteralExpression(kind: string, tokens: seq<Token>, position: int)
    requires 0 <= position < |tokens|
    ensures LiteralParse(kind, tokens, position) ==
      if tokens[position].kind == kind then Ok(LiteralExpressionParse(kind, position))
      else Err("Expected the next token to have type " + kind)
  {
  }

  /** A literal parser always moves past the token it read. */
  lemma LiteralAdvances(kind: string, tokens: seq<Token>)
    ensures Advances((ts, p) => LiteralParse(kind, ts, p), tokens)
  {
  }
}
