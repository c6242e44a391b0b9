/** `BinaryParser` (src/components/parsing/BinaryParser.cpp): an operand, an
    infix operator token and a second operand. `BinaryExpression`
    (src/components/parsing/BinaryExpression.cpp) runs the same steps over an
    `ExpressionMap`, so `BinaryParse` with that map as `operand` models it. */
module BinaryParsers {
  import opened Wrappers
  import opened Tokens
  import opened Expressions
  import opened Parsing

  /** Parses the left operand at `position`; the token where it ends must
      have the operator type; the right operand starts one past it. */
  function BinaryParse(op: string, operand: Parser, tokens: seq<Token>, position: int): (r: Result<Node>)
    ensures r.Ok? ==> operand(tokens, position).Ok?
    ensures r.Ok? ==>
      var left := operand(tokens, position).value;
      PeekAt(tokens, left.endPos).Ok? && PeekAt(tokens, left.endPos).value.kind == op &&
      operand(tokens, left.endPos + 1).Ok? &&
      r.value == Node(op, position, operand(tokens, left.endPos + 1).value.endPos,
        [left, operand(tokens, left.endPos + 1).value], [], map[])
    ensures (operand(tokens, position).Ok? &&
      PeekAt(tokens, operand(tokens, position).value.endPos).Ok? &&
      PeekAt(tokens, operand(tokens, position).value.endPos).value.kind != op) ==>
      r == Err("Expected the operator: " + op)
    ensures operand(tokens, position).Err? ==> r == operand(tokens, position)
  {
    var left :- operand(tokens, position);
    var next :- PeekAt(tokens, left.endPos);
    if next.kind == op then
      var right :- operand(tokens, left.endPos + 1);
      Ok(Node(op, position, right.endPos, [left, right], [], map[]))
    else
      Err("Expected the operator: " + op)
  }

  /** A binary parser advances whenever its operand parser does; its two
      children lie one after the other with the operator token between. */
  lemma BinaryAdvances(op: string, operand: Parser, tokens: seq<Token>)
    requires Advances(operand, tokens)
    ensures Advances((ts, p) => BinaryParse(op, operand, ts, p), tokens)
    ensures forall p :: BinaryParse(op, operand, tokens, p).Ok? ==>
      var n := BinaryParse(op, operand, tokens, p).value;
      p < n.children[0].endPos < n.children[0].endPos + 1 < n.endPos
  {
    forall p | BinaryParse(op, operand, tokens, p).Ok?
      ensures p < BinaryParse(op, operand, tokens, p).value.endPos
      ensures var n := BinaryParse(op, operand, tokens, p).value;
        p < n.children[0].endPos < n.children[0].endPos + 1 < n.endPos
    {
      var left := operand(tokens, p).value;
      assert operand(tokens, p).Ok?;
      assert operand(tokens, left.endPos + 1).Ok?;
    }
  }
}
