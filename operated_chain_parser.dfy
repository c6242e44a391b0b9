/** `OperatedChainParser` (src/components/parsing/OperatedChainParser.cpp):
    operands joined by operators, with precedence levels deciding where a
    following operator attaches. */
module OperatedChainParsers {
  import opened Wrappers
  import opened Tokens
  import opened Expressions
  import opened Parsing
  import LiteralParsers
  import BinaryParsers
  import MapParsers

  /** `precedenceLevel`: the level of the node's type, else that of its root
      token's value, else -1. */
  function PrecedenceLevel(levels: map<string, int>, n: Node): (level: int)
    ensures n.kind in levels ==> level == levels[n.kind]
    ensures n.kind !in levels && RootTokenValue(n).Some? && RootTokenValue(n).value in levels ==>
      level == levels[RootTokenValue(n).value]
    ensures n.kind !in levels && (RootTokenValue(n).None? || RootTokenValue(n).value !in levels) ==> level == -1
  {
    if n.kind in levels then levels[n.kind]
    else
      match RootTokenValue(n)
      case Some(v) => if v in levels then levels[v] else -1
      case None => -1
  }

  /** The leftmost spine of a tree: the node, its first child, that child's
      first child, and so on down to a leaf. */
  function LeftSpine(n: Node): (spine: seq<Node>)
    ensures |spine| > 0 && spine[0] == n && spine[|spine| - 1].children == []
    decreases n
  {
    if |n.children| == 0 then [n] else [n] + LeftSpine(n.children[0])
  }

  /** `_firstHigherPrecedenceLeftChild`: walking down the leftmost spine, the
      first node whose level is above `precedence`, or the leftmost leaf when
      there is none. */
  function FirstHigherPrecedenceLeftChild(levels: map<string, int>, n: Node, precedence: int): (r: Node)
    ensures PrecedenceLevel(levels, r) > precedence || r.children == []
    decreases n
  {
    if PrecedenceLevel(levels, n) > precedence then n
    else if |n.children| > 0 then FirstHigherPrecedenceLeftChild(levels, n.children[0], precedence)
    else n
  }

  /** The node found lies on the leftmost spine, and every spine node above
      it is at or below `precedence`. */
  lemma {:induction false} FirstHigherOnSpine(levels: map<string, int>, n: Node, precedence: int)
    ensures exists k :: (0 <= k < |LeftSpine(n)| &&
                         LeftSpine(n)[k] == FirstHigherPrecedenceLeftChild(levels, n, precedence) &&
                         forall j :: 0 <= j < k ==> PrecedenceLevel(levels, LeftSpine(n)[j]) <= precedence)
    decreases n
  {
    var spine := LeftSpine(n);
    var r := FirstHigherPrecedenceLeftChild(levels, n, precedence);
    if PrecedenceLevel(levels, n) <= precedence && |n.children| > 0 {
      var c := n.children[0];
      FirstHigherOnSpine(levels, c, precedence);
      assert spine == [n] + LeftSpine(c);
      var k :| 0 <= k < |LeftSpine(c)| && LeftSpine(c)[k] == r &&
        forall j :: 0 <= j < k ==> PrecedenceLevel(levels, LeftSpine(c)[j]) <= precedence;
      assert spine[k + 1] == r;
      forall j | 0 <= j < k + 1
        ensures PrecedenceLevel(levels, spine[j]) <= precedence
      {
        if j > 0 {
          assert spine[j] == LeftSpine(c)[j - 1];
        }
      }
    } else {
      assert spine[0] == r;
    }
  }

  /** When no node of the spine is above `precedence`, the search ends at the
      leftmost leaf. */
  lemma NoHigherGivesLeftmostLeaf(levels: map<string, int>, n: Node, precedence: int)
    requires forall j :: 0 <= j < |LeftSpine(n)| ==> PrecedenceLevel(levels, LeftSpine(n)[j]) <= precedence
    ensures FirstHigherPrecedenceLeftChild(levels, n, precedence) == LeftSpine(n)[|LeftSpine(n)| - 1]
  {
    var r := FirstHigherPrecedenceLeftChild(levels, n, precedence);
    FirstHigherOnSpine(levels, n, precedence);
    var k :| 0 <= k < |LeftSpine(n)| && LeftSpine(n)[k] == r;
    if k < |LeftSpine(n)| - 1 {
      LeftSpineLinks(n, k);
    }
  }

  /** Each spine node's first child is the next spine node. */
  lemma {:induction false} LeftSpineLinks(n: Node, k: nat)
    requires k < |LeftSpine(n)| - 1
    ensures |LeftSpine(n)[k].children| > 0 && LeftSpine(n)[k + 1] == LeftSpine(n)[k].children[0]
    decreases n
  {
    if k > 0 {
      LeftSpineLinks(n.children[0], k - 1);
    }
  }

  /** The outcome of `parse`. The branch where a second operator follows
      rebuilds the tree in place through `replaceAsParent` and
      `earliestAncestor`, which are not part of this model; the outcome then
      records the operator expression and where the rest would be parsed. */
  datatype OperatedOutcome =
    | Done(result: Result<Node>)
    | Rewrite(operatorExpression: Node, restStart: int)

  /** `parse`: the first operand; when the token after it is a registered
      non-unary operator, that operator's parser from the same start; when
      yet another operator follows, the rewrite. */
  function OperatedParse(parser: Parser, nonUnaryParsers: map<string, Parser>,
                         tokens: seq<Token>, position: int): (r: OperatedOutcome)
    ensures parser(tokens, position).Err? ==> r == Done(parser(tokens, position))
    ensures (parser(tokens, position).Ok? && PeekAt(tokens, parser(tokens, position).value.endPos).Ok? &&
      PeekAt(tokens, parser(tokens, position).value.endPos).value.kind !in nonUnaryParsers) ==>
      r == Done(parser(tokens, position))
    ensures r.Done? && r.result.Ok? && r.result != parser(tokens, position) ==>
      exists op :: op in nonUnaryParsers && nonUnaryParsers[op](tokens, position) == r.result &&
        PeekAt(tokens, r.result.value.endPos).Ok? &&
        PeekAt(tokens, r.result.value.endPos).value.kind !in nonUnaryParsers
    ensures r.Rewrite? ==>
      |r.operatorExpression.children| > 0 &&
      r.restStart == r.operatorExpression.children[|r.operatorExpression.children| - 1].startPos
    // One operator after the first operand: its parse from the same start is
    // the result, an error included, unless yet another operator follows.
    ensures var first := parser(tokens, position);
      (first.Ok? && PeekAt(tokens, first.value.endPos).Ok? &&
       PeekAt(tokens, first.value.endPos).value.kind in nonUnaryParsers) ==>
      var nonUnary := nonUnaryParsers[PeekAt(tokens, first.value.endPos).value.kind](tokens, position);
      (nonUnary.Err? ==> r == Done(nonUnary)) &&
      ((nonUnary.Ok? && PeekAt(tokens, nonUnary.value.endPos).Ok? &&
        PeekAt(tokens, nonUnary.value.endPos).value.kind !in nonUnaryParsers) ==> r == Done(nonUnary)) &&
      ((nonUnary.Ok? && PeekAt(tokens, nonUnary.value.endPos).Ok? &&
        PeekAt(tokens, nonUnary.value.endPos).value.kind in nonUnaryParsers) ==>
         r.Rewrite? == (|nonUnary.value.children| > 0) && (r.Rewrite? ==> r.operatorExpression == nonUnary.value))
    // A failed look-ahead (a negative position) ends the parse with its error.
    ensures var first := parser(tokens, position);
      first.Ok? && PeekAt(tokens, first.value.endPos).Err? ==>
      r == Done(Err(PeekAt(tokens, first.value.endPos).msg))
  {
    var first := parser(tokens, position);
    if first.Err? then Done(first)
    else
      var nextToken := PeekAt(tokens, first.value.endPos);
      if nextToken.Err? then Done(Err(nextToken.msg))
      else if nextToken.value.kind in nonUnaryParsers then
        var nonUnary := nonUnaryParsers[nextToken.value.kind](tokens, position);
        if nonUnary.Err? then Done(nonUnary)
        else
          var following := PeekAt(tokens, nonUnary.value.endPos);
          if following.Err? then Done(Err(following.msg))
          else if following.value.kind in nonUnaryParsers then
            if |nonUnary.value.children| == 0 then Done(Err("Expression: no right-most child"))
            else
              var children := nonUnary.value.children;
              Rewrite(nonUnary.value, children[|children| - 1].startPos)
          else Done(nonUnary)
      else Done(first)
  }

  /** The parser object; `setPrecedenceLevels` replaces the whole map. */
  class OperatedChainParser {
    const parser: Parser
    const nonUnaryParsers: map<string, Parser>
    var precedenceLevels: map<string, int>

    constructor (parser: Parser, nonUnaryParsers: map<string, Parser>, precedenceLevels: map<string, int>)
      ensures this.parser == parser && this.nonUnaryParsers == nonUnaryParsers
      ensures this.precedenceLevels == precedenceLevels
    {
      this.parser := parser;
      this.nonUnaryParsers := nonUnaryParsers;
      this.precedenceLevels := precedenceLevels;
    }

    method SetPrecedenceLevels(precedenceLevels: map<string, int>)
      modifies this
      ensures this.precedenceLevels == precedenceLevels
    {
      this.precedenceLevels := precedenceLevels;
    }
  }

  /** The operand parser of the worked example: the operands of `abc AND efg`
      are identifiers, so a map holding only the identifier rule gives the
      operands the full map would. */
  function Identifiers(): map<string, Parser>
  {
    map["identifier" := (ts: seq<Token>, p: int) => LiteralParsers.LiteralParse("identifier", ts, p)]
  }

  function ExampleTokens(): seq<Token>
  {
    [Token("identifier", "abc", 0, 3), Token("AND", "AND", 3, 6), Token("identifier", "efg", 6, 9)]
  }

  /** `abc AND efg` parses to AND with the two identifiers as children. */
  lemma OperatedChainExample()
    ensures var operand := (ts: seq<Token>, p: int) => MapParsers.MapParse(Identifiers(), ts, p);
      var and := (ts: seq<Token>, p: int) => BinaryParsers.BinaryParse("AND", operand, ts, p);
      var top := map["identifier" := Identifiers()["identifier"], "AND" := and];
      OperatedParse((ts, p) => MapParsers.MapParse(top, ts, p), map["AND" := and], ExampleTokens(), 0) ==
        Done(Ok(Node("AND", 0, 3, [Leaf("identifier", 0, 1), Leaf("identifier", 2, 3)], [], map[])))
  {
    var ts := ExampleTokens();
    var operand := (ts: seq<Token>, p: int) => MapParsers.MapParse(Identifiers(), ts, p);
    assert operand(ts, 0) == Ok(Leaf("identifier", 0, 1));
    assert operand(ts, 2) == Ok(Leaf("identifier", 2, 3));
    assert PeekAt(ts, 3).value.kind == "end";
  }
}
