/** `UnaryParser` (src/components/parsing/UnaryParser.cpp) and its older twin
    `UnaryExpression` (src/components/parsing/UnaryExpression.cpp): a prefix
    operator token followed by one operand. */
module UnaryParsers {
  import opened Wrappers
  import opened Tokens
  import opened Expressions
  import opened Parsing

  /** `UnaryParser::parse`: the token at `position` must have the operator
      type; the operand is parsed right after it. The node records the
      operator token and has the operand as its only child. */
  function UnaryParse(op: string, operand: Parser, tokens: seq<Token>, position: int): (r: Result<Node>)
    ensures r.Ok? <==>
      PeekAt(tokens, position).Ok? && PeekAt(tokens, position).value.kind == op &&
      operand(tokens, position + 1).Ok?
    ensures r.Ok? ==>
      r.value.kind == op && r.value.startPos == position &&
      r.value.children == [operand(tokens, position + 1).value] &&
      r.value.endPos == operand(tokens, position + 1).value.endPos &&
      r.value.tokens == [PeekAt(tokens, position).value] && r.value.subTypes == map[]
    ensures PeekAt(tokens, position).Ok? && PeekAt(tokens, position).value.kind != op ==>
      r == Err("Expected the operator: " + op)
  {
    var first :- PeekAt(tokens, position);
    if first.kind == op then
      var following :- operand(tokens, position + 1);
      Ok(Node(op, position, following.endPos, [following], [first], map[]))
    else
      Err("Expected the operator: " + op)
  }

  /** `UnaryExpression::parse`: the same check and operand, but the node
      records no tokens. */
  function UnaryExpressionParse(op: string, operand: Parser, tokens: seq<Token>, position: int): Result<Node>
  {
    var first :- PeekAt(tokens, position);
    if first.kind == op then
      var following :- operand(tokens, position + 1);
      Ok(Node(op, position, following.endPos, [following], [], map[]))
    else
      Err("Expected the operator: " + op)
  }

  /** The two versions agree except that the older one forgets the
      operator token. */
  lemma UnaryExpressionForgetsToken(op: string, operand: Parser, tokens: seq<Token>, position: int)
    ensures UnaryExpressionParse(op, operand, tokens, position).Ok? == UnaryParse(op, operand, tokens, position).Ok?
    ensures UnaryParse(op, operand, tokens, position).Ok? ==>
      UnaryExpressionParse(op, operand, tokens, position).value ==
      UnaryParse(op, operand, tokens, position).value.(tokens := [])
    ensures UnaryParse(op, operand, tokens, position).Err? ==>
      UnaryExpressionParse(op, operand, tokens, position) == UnaryParse(op, operand, tokens, position)
  {
  }

  /** A unary parser advances whenever its operand parser does. */
  lemma UnaryAdvances(op: string, operand: Parser, tokens: seq<Token>)
    requires Advances(operand, tokens)
    ensures Advances((ts, p) => UnaryParse(op, operand, ts, p), tokens)
  {
    forall p | UnaryParse(op, operand, tokens, p).Ok?
      ensures p < UnaryParse(op, operand, tokens, p).value.endPos
    {
      assert operand(tokens, p + 1).Ok?;
    }
  }

  /** Stacked operators nest: a unary parser whose operand is again the unary
      parser for the same operator reads `op op x` as op(op(x)), each node
      holding its own operator token. */
  lemma UnaryStacks(op: string, inner: Parser, tokens: seq<Token>, position: int)
    requires 0 <= position && position + 1 < |tokens|
    requires tokens[position].kind == op && tokens[position + 1].kind == op
    requires inner(tokens, position + 2).Ok?
    ensures var r := UnaryParse(op, (ts, p) => UnaryParse(op, inner, ts, p), tokens, position);
      r.Ok? && r.value.kind == op && r.value.tokens == [tokens[position]] &&
      |r.value.children| == 1 &&
      r.value.children[0] == Node(op, position + 1, inner(tokens, position + 2).value.endPos,
        [inner(tokens, position + 2).value], [tokens[position + 1]], map[])
  {
    var nested: Parser := (ts, p) => UnaryParse(op, inner, ts, p);
    assert nested(tokens, position + 1).Ok?;
  }
}
