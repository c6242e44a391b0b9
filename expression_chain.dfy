/** `ExpressionChain` (src/components/parsing/ExpressionChain.cpp): operands
    joined by non-unary operators, nested to the right. */
module ExpressionChains {
  import opened Wrappers
  import opened Tokens
  import opened Expressions
  import opened Parsing
  import opened Decimal
  import LiteralParsers
  import BinaryParsers
  import UnaryParsers
  import MapParsers

  /** Reported where the operator's right-most child starts at the chain's
      start, where the source would recurse forever; also where it starts
      before it or more than one past the end of the tokens, where the source
      would step back or read the end token and carry on. */
  const NoProgress := "ExpressionChain: no progress"

  /** `parse`: the first expression by dispatch; if the token after it has
      no constructor, that expression. Otherwise the token must be a
      non-unary operator: its expression is parsed from the chain's start
      (so the first expression becomes its left child), and the rest of the
      chain, parsed from where its right-most child starts, replaces that
      child. The second membership test in the source repeats the first and
      can never fail, so the rest is always parsed. */
  function ExpressionChainParse(constructors: map<string, Parser>, nonUnary: set<string>,
                                tokens: seq<Token>, position: int): (r: Result<Node>)
    ensures r.Ok? ==> MapParsers.MapParse(constructors, tokens, position).Ok?
    decreases |tokens| + 1 - position
  {
    var first :- MapParsers.MapParse(constructors, tokens, position);
    var next :- PeekAt(tokens, first.endPos);
    if next.kind !in constructors then Ok(first)
    else if next.kind !in nonUnary then
      Err("The token at position " + IntToString(next.startPos) + " was expected to be a binary operator.")
    else
      var operator :- MapParsers.MapParseWith(constructors, next.kind, tokens, position);
      if |operator.children| == 0 then Err("Expression: no right-most child")
      else
        var last := operator.children[|operator.children| - 1];
        if last.startPos <= position || last.startPos > |tokens| then Err(NoProgress)
        else
          var rest :- ExpressionChainParse(constructors, nonUnary, tokens, last.startPos);
          Ok(operator.(children := operator.children[..|operator.children| - 1] + [rest]))
  }

  /** The token following the first expression. */
  function Following(constructors: map<string, Parser>, tokens: seq<Token>, position: int): Result<Token>
  {
    var first :- MapParsers.MapParse(constructors, tokens, position);
    PeekAt(tokens, first.endPos)
  }

  /** Nothing recognisable after the first expression: the chain is that
      expression. */
  lemma NoOperatorGivesFirst(constructors: map<string, Parser>, nonUnary: set<string>,
                             tokens: seq<Token>, position: int)
    requires Following(constructors, tokens, position).Ok?
    requires Following(constructors, tokens, position).value.kind !in constructors
    ensures ExpressionChainParse(constructors, nonUnary, tokens, position) ==
      MapParsers.MapParse(constructors, tokens, position)
  {
  }

  /** A recognised token that is not a non-unary operator makes the chain
      fail, with its start position in the message. */
  lemma NonOperatorFails(constructors: map<string, Parser>, nonUnary: set<string>,
                         tokens: seq<Token>, position: int)
    requires Following(constructors, tokens, position).Ok?
    requires var next := Following(constructors, tokens, position).value;
      next.kind in constructors && next.kind !in nonUnary
    ensures ExpressionChainParse(constructors, nonUnary, tokens, position) ==
      Err("The token at position " + IntToString(Following(constructors, tokens, position).value.startPos) +
          " was expected to be a binary operator.")
  {
  }

  /** After an operator, the result is the operator's expression, parsed from
      the chain's start, with its right-most child replaced by the rest of the
      chain parsed from where that child starts; its type, span and other
      children are the operator expression's own. */
  lemma OperatorNestsRight(constructors: map<string, Parser>, nonUnary: set<string>,
                           tokens: seq<Token>, position: int)
    requires Following(constructors, tokens, position).Ok?
    requires ExpressionChainParse(constructors, nonUnary, tokens, position).Ok?
    requires Following(constructors, tokens, position).value.kind in constructors
    ensures var kind := Following(constructors, tokens, position).value.kind;
      var operator := constructors[kind](tokens, position);
      var r := ExpressionChainParse(constructors, nonUnary, tokens, position).value;
      kind in nonUnary && operator.Ok? && |operator.value.children| > 0 &&
      var n := |operator.value.children|;
      var rest := ExpressionChainParse(constructors, nonUnary, tokens, operator.value.children[n - 1].startPos);
      rest.Ok? &&
      r.kind == operator.value.kind && r.startPos == operator.value.startPos &&
      r.endPos == operator.value.endPos && |r.children| == n &&
      r.children[..n - 1] == operator.value.children[..n - 1] && r.children[n - 1] == rest.value
  {
  }

  /** Conversely, an operator whose expression parses and whose rest parses
      gives the operator's expression with the rest as its right-most child. */
  lemma OperatorStep(constructors: map<string, Parser>, nonUnary: set<string>,
                     tokens: seq<Token>, position: int, operator: Node, rest: Node)
    requires Following(constructors, tokens, position).Ok?
    requires var kind := Following(constructors, tokens, position).value.kind;
      kind in constructors && kind in nonUnary && constructors[kind](tokens, position) == Ok(operator)
    requires |operator.children| > 0
    requires var last := operator.children[|operator.children| - 1];
      position < last.startPos <= |tokens| &&
      ExpressionChainParse(constructors, nonUnary, tokens, last.startPos) == Ok(rest)
    ensures ExpressionChainParse(constructors, nonUnary, tokens, position) ==
      Ok(operator.(children := operator.children[..|operator.children| - 1] + [rest]))
  {
  }

  /** Operator parsers whose right-most child starts after the operator's
      start and at most one past the end of the tokens. */
  ghost predicate OperatorsProgress(constructors: map<string, Parser>, nonUnary: set<string>, tokens: seq<Token>)
  {
    forall kind, p :: (kind in nonUnary && kind in constructors && constructors[kind](tokens, p).Ok? &&
                       |constructors[kind](tokens, p).value.children| > 0) ==>
      var children := constructors[kind](tokens, p).value.children;
      p < children[|children| - 1].startPos <= |tokens|
  }

  /** No registered parser reports the model's own progress error. */
  ghost predicate NoStallReported(constructors: map<string, Parser>, tokens: seq<Token>)
  {
    forall kind, p :: kind in constructors ==> constructors[kind](tokens, p) != Err(NoProgress)
  }

  /** With such operators the source's recursion always moves forward, and
      the model never reports the missing progress. */
  lemma {:induction false} OperatorsProgressNeverStall(constructors: map<string, Parser>, nonUnary: set<string>,
                                                       tokens: seq<Token>, position: int)
    requires OperatorsProgress(constructors, nonUnary, tokens) && NoStallReported(constructors, tokens)
    ensures ExpressionChainParse(constructors, nonUnary, tokens, position) != Err(NoProgress)
    decreases |tokens| + 1 - position
  {
    var first := MapParsers.MapParse(constructors, tokens, position);
    if first.Ok? && PeekAt(tokens, first.value.endPos).Ok? {
      var next := PeekAt(tokens, first.value.endPos).value;
      if next.kind in constructors && next.kind in nonUnary {
        var operator := MapParsers.MapParseWith(constructors, next.kind, tokens, position);
        if operator.Ok? && |operator.value.children| > 0 {
          var last := operator.value.children[|operator.value.children| - 1];
          assert position < last.startPos <= |tokens|;
          OperatorsProgressNeverStall(constructors, nonUnary, tokens, last.startPos);
        }
      }
    }
  }

  /** The operands of the worked examples: identifiers, read by the
      literal expression, which accepts whatever token is there. */
  function Identifiers(): map<string, Parser>
  {
    map["identifier" := (ts: seq<Token>, p: int) => Ok(LiteralParsers.LiteralExpressionParse("identifier", p))]
  }

  /** The binary AND over identifier operands. */
  function IdentifierAnd(): Parser
  {
    (ts: seq<Token>, p: int) =>
      BinaryParsers.BinaryParse("AND", (ts: seq<Token>, p: int) => MapParsers.MapParse(Identifiers(), ts, p), ts, p)
  }

  /** Identifiers and AND: the constructors of `abc AND efg`. */
  function IdentifiersAndAnd(): map<string, Parser>
  {
    Identifiers()["AND" := IdentifierAnd()]
  }

  /** `abc AND efg` gives AND over the two identifiers. */
  lemma SimpleBinaryExample()
    ensures ExpressionChainParse(IdentifiersAndAnd(), {"AND"},
      [Token("identifier", "abc", 0, 3), Token("AND", "AND", 3, 6), Token("identifier", "efg", 6, 9)], 0) ==
      Ok(Node("AND", 0, 3, [Leaf("identifier", 0, 1), Leaf("identifier", 2, 3)], [], map[]))
  {
    var ts := [Token("identifier", "abc", 0, 3), Token("AND", "AND", 3, 6), Token("identifier", "efg", 6, 9)];
    var operand := (ts: seq<Token>, p: int) => MapParsers.MapParse(Identifiers(), ts, p);
    var m := IdentifiersAndAnd();
    assert m["identifier"] == Identifiers()["identifier"] && m["AND"] == IdentifierAnd();
    assert MapParsers.MapParse(m, ts, 0) == Ok(Leaf("identifier", 0, 1));
    assert PeekAt(ts, 1).value.kind == "AND";
    assert operand(ts, 0) == Ok(Leaf("identifier", 0, 1));
    assert operand(ts, 2) == Ok(Leaf("identifier", 2, 3));
    var and := Node("AND", 0, 3, [Leaf("identifier", 0, 1), Leaf("identifier", 2, 3)], [], map[]);
    assert IdentifierAnd()(ts, 0) == Ok(and);
    assert ExpressionChainParse(m, {"AND"}, ts, 2) == Ok(Leaf("identifier", 2, 3));
    OperatorStep(m, {"AND"}, ts, 0, and, Leaf("identifier", 2, 3));
    assert and.children[..1] + [Leaf("identifier", 2, 3)] == and.children;
  }

  /** `a AND b AND c` nests to the right, AND(a, AND(b, c)); the outer node
      keeps the span of the first AND, since the rest replaces only its
      child. */
  lemma ChainNestsRightExample()
    ensures var ts := [Token("identifier", "a", 0, 1), Token("AND", "AND", 2, 5), Token("identifier", "b", 6, 7),
                       Token("AND", "AND", 8, 11), Token("identifier", "c", 12, 13)];
      ExpressionChainParse(IdentifiersAndAnd(), {"AND"}, ts, 0) ==
        Ok(Node("AND", 0, 3, [Leaf("identifier", 0, 1),
          Node("AND", 2, 5, [Leaf("identifier", 2, 3), Leaf("identifier", 4, 5)], [], map[])], [], map[]))
  {
    var ts := [Token("identifier", "a", 0, 1), Token("AND", "AND", 2, 5), Token("identifier", "b", 6, 7),
               Token("AND", "AND", 8, 11), Token("identifier", "c", 12, 13)];
    var operand := (ts: seq<Token>, p: int) => MapParsers.MapParse(Identifiers(), ts, p);
    assert operand(ts, 0) == Ok(Leaf("identifier", 0, 1));
    assert operand(ts, 2) == Ok(Leaf("identifier", 2, 3));
    assert operand(ts, 4) == Ok(Leaf("identifier", 4, 5));
    var m := IdentifiersAndAnd();
    assert m["identifier"] == Identifiers()["identifier"] && m["AND"] == IdentifierAnd();
    var inner := Node("AND", 2, 5, [Leaf("identifier", 2, 3), Leaf("identifier", 4, 5)], [], map[]);
    var outer := Node("AND", 0, 3, [Leaf("identifier", 0, 1), Leaf("identifier", 2, 3)], [], map[]);
    assert IdentifierAnd()(ts, 2) == Ok(inner);
    assert IdentifierAnd()(ts, 0) == Ok(outer);
    assert MapParsers.MapParse(m, ts, 0) == Ok(Leaf("identifier", 0, 1));
    assert MapParsers.MapParse(m, ts, 2) == Ok(Leaf("identifier", 2, 3));
    assert ExpressionChainParse(m, {"AND"}, ts, 4) == Ok(Leaf("identifier", 4, 5));
    OperatorStep(m, {"AND"}, ts, 2, inner, Leaf("identifier", 4, 5));
    assert inner.children[..1] + [Leaf("identifier", 4, 5)] == inner.children;
    OperatorStep(m, {"AND"}, ts, 0, outer, inner);
    assert outer.children[..1] + [inner] == [Leaf("identifier", 0, 1), inner];
  }

  /** NOT over an operand read by `operands`. */
  function Not(operands: map<string, Parser>): Parser
  {
    (ts: seq<Token>, p: int) =>
      UnaryParsers.UnaryExpressionParse("NOT", (ts: seq<Token>, p: int) => MapParsers.MapParse(operands, ts, p), ts, p)
  }

  /** The constructors of the mixed example: identifiers, NOT and AND, where
      each NOT reads its operand with the same constructors. A map cannot
      hold itself, so the nesting is built in layers deep enough for two
      stacked NOTs. */
  function OneNot(): map<string, Parser>
  {
    Identifiers()["NOT" := Not(Identifiers())]
  }

  function TwoNots(): map<string, Parser>
  {
    Identifiers()["NOT" := Not(OneNot())]
  }

  function TwoNotsAnd(): map<string, Parser>
  {
    TwoNots()["AND" := (ts: seq<Token>, p: int) =>
      BinaryParsers.BinaryParse("AND", (ts: seq<Token>, p: int) => MapParsers.MapParse(TwoNots(), ts, p), ts, p)]
  }

  /** The tokens of `NOT NOT abc AND NOT NOT efg`. */
  const MixedTokens: seq<Token> :=
    [Token("NOT", "NOT", 0, 1), Token("NOT", "NOT", 1, 2), Token("identifier", "abc", 2, 5),
     Token("AND", "AND", -1, -1), Token("NOT", "NOT", -1, -1), Token("NOT", "NOT", -1, -1),
     Token("identifier", "efg", -1, -1)]

  /** NOT(NOT(identifier)) over the three tokens from `start`. */
  function DoubleNot(start: int): Node
  {
    Node("NOT", start, start + 3, [Node("NOT", start + 1, start + 3, [Leaf("identifier", start + 2, start + 3)], [], map[])], [], map[])
  }

  /** Each operand of the mixed example is read as two stacked NOTs. */
  lemma DoubleNotOperand(start: int)
    requires start == 0 || start == 4
    ensures MapParsers.MapParse(TwoNots(), MixedTokens, start) == Ok(DoubleNot(start))
  {
    var ts := MixedTokens;
    var inner := DoubleNot(start).children[0];
    assert TwoNots()["NOT"] == Not(OneNot());
    assert OneNot()["NOT"] == Not(Identifiers());
    assert MapParsers.MapParse(Identifiers(), ts, start + 2) == Ok(Leaf("identifier", start + 2, start + 3));
    assert Not(Identifiers())(ts, start + 1) == Ok(inner);
    assert MapParsers.MapParse(OneNot(), ts, start + 1) == Ok(inner);
  }

  /** `NOT NOT abc AND NOT NOT efg` gives AND(NOT(NOT(abc)), NOT(NOT(efg))). */
  lemma UnaryAndBinaryExample()
    ensures ExpressionChainParse(TwoNotsAnd(), {"AND"}, MixedTokens, 0) ==
      Ok(Node("AND", 0, 7, [
        Node("NOT", 0, 3, [Node("NOT", 1, 3, [Leaf("identifier", 2, 3)], [], map[])], [], map[]),
        Node("NOT", 4, 7, [Node("NOT", 5, 7, [Leaf("identifier", 6, 7)], [], map[])], [], map[])], [], map[]))
  {
    var ts := MixedTokens;
    var left := DoubleNot(0);
    var right := DoubleNot(4);
    var and := Node("AND", 0, 7, [left, right], [], map[]);
    var top := TwoNotsAnd();
    DoubleNotOperand(0);
    DoubleNotOperand(4);
    assert top["NOT"] == TwoNots()["NOT"];
    assert MapParsers.MapParse(top, ts, 0) == Ok(left);
    assert MapParsers.MapParse(top, ts, 4) == Ok(right);
    assert top["AND"](ts, 0) == Ok(and);
    assert ExpressionChainParse(top, {"AND"}, ts, 4) == Ok(right);
    OperatorStep(top, {"AND"}, ts, 0, and, right);
    assert and.children[..1] + [right] == and.children;
  }
}
