/** `SkeletonParser` (src/components/parsing/SkeletonParser.cpp): walks a
    fixed pattern of token checks and sub-expressions. */
module SkeletonParsers {
  import opened Wrappers
  import opened Tokens
  import opened Expressions
  import opened Parsing

  /** A pattern element: its type ("token-value", "token-type", "expression"
      or anything else, such as "trail") and its value. */
  datatype PatternElement = PatternElement(elementType: string, elementValue: string)

  predicate IsTokenElement(e: PatternElement)
  {
    e.elementType == "token-value" || e.elementType == "token-type"
  }

  /** Whether a token element matches the token under the cursor. */
  predicate Matches(e: PatternElement, token: Token)
  {
    (e.elementType == "token-value" && token.value == e.elementValue) ||
    (e.elementType == "token-type" && token.kind == e.elementValue)
  }

  /** The walk over the rest of the pattern from `cursor`: the
      sub-expressions parsed and the final cursor. A token element peeks
      (which throws at a negative cursor) and consumes one token when it
      matches; an expression element with a registered parser parses at the
      cursor without moving it; every other element is skipped. */
  function Walk(pattern: seq<PatternElement>, parsers: map<string, Parser>, tokens: seq<Token>, cursor: int)
    : Result<(seq<Node>, int)>
    decreases |pattern|
  {
    if pattern == [] then Ok(([], cursor))
    else
      var e := pattern[0];
      if IsTokenElement(e) then
        var token :- PeekAt(tokens, cursor);
        Walk(pattern[1..], parsers, tokens, if Matches(e, token) then cursor + 1 else cursor)
      else if e.elementType == "expression" && e.elementValue in parsers then
        var expression :- parsers[e.elementValue](tokens, cursor);
        var rest :- Walk(pattern[1..], parsers, tokens, cursor);
        Ok(([expression] + rest.0, rest.1))
      else
        Walk(pattern[1..], parsers, tokens, cursor)
  }

  /** `parse`: the node of the configured type spanning from `position` to
      the final cursor, with the parsed sub-expressions as children. */
  function SkeletonParse(kind: string, pattern: seq<PatternElement>, parsers: map<string, Parser>,
                         tokens: seq<Token>, position: int): Result<Node>
  {
    if |tokens| == 0 then Err("TokenSequence: empty token list")
    else
      var run :- Walk(pattern, parsers, tokens, position);
      Ok(Node(kind, position, run.1, run.0, [], map[]))
  }

  function CountTokenElements(pattern: seq<PatternElement>): nat
  {
    if pattern == [] then 0
    else if IsTokenElement(pattern[0]) then 1 + CountTokenElements(pattern[1..])
    else CountTokenElements(pattern[1..])
  }

  function CountExpressionElements(pattern: seq<PatternElement>, parsers: map<string, Parser>): nat
  {
    if pattern == [] then 0
    else if pattern[0].elementType == "expression" && pattern[0].elementValue in parsers then
      1 + CountExpressionElements(pattern[1..], parsers)
    else CountExpressionElements(pattern[1..], parsers)
  }

  /** Only matched token elements move the cursor, by one each, and every
      registered expression element adds exactly one child. */
  lemma {:induction false} WalkCounts(pattern: seq<PatternElement>, parsers: map<string, Parser>,
                                      tokens: seq<Token>, cursor: int)
    ensures var r := Walk(pattern, parsers, tokens, cursor);
      r.Ok? ==>
        cursor <= r.value.1 <= cursor + CountTokenElements(pattern) &&
        |r.value.0| == CountExpressionElements(pattern, parsers)
    decreases |pattern|
  {
    if pattern != [] {
      var e := pattern[0];
      if IsTokenElement(e) && PeekAt(tokens, cursor).Ok? {
        var next := if Matches(e, PeekAt(tokens, cursor).value) then cursor + 1 else cursor;
        WalkCounts(pattern[1..], parsers, tokens, next);
      } else {
        WalkCounts(pattern[1..], parsers, tokens, cursor);
      }
    }
  }

  /** Every child is the result of some registered parser at `cursor`. */
  ghost predicate ParsedAt(parsers: map<string, Parser>, tokens: seq<Token>, cursor: int, children: seq<Node>)
  {
    forall i :: 0 <= i < |children| ==>
      exists key :: key in parsers && parsers[key](tokens, cursor) == Ok(children[i])
  }

  /** Each child is what its parser returns at the cursor the walk has
      reached: with no token elements the cursor never moves, so every
      registered expression is parsed at the start. */
  lemma {:induction false} WalkWithoutTokensParsesInPlace(pattern: seq<PatternElement>, parsers: map<string, Parser>,
                                                          tokens: seq<Token>, cursor: int)
    requires CountTokenElements(pattern) == 0
    ensures Walk(pattern, parsers, tokens, cursor).Ok? ==>
      Walk(pattern, parsers, tokens, cursor).value.1 == cursor &&
      ParsedAt(parsers, tokens, cursor, Walk(pattern, parsers, tokens, cursor).value.0)
    decreases |pattern|
  {
    if pattern != [] {
      WalkWithoutTokensParsesInPlace(pattern[1..], parsers, tokens, cursor);
      var e := pattern[0];
      var r := Walk(pattern, parsers, tokens, cursor);
      if r.Ok? && e.elementType == "expression" && e.elementValue in parsers {
        var rest := Walk(pattern[1..], parsers, tokens, cursor).value;
        var first := parsers[e.elementValue](tokens, cursor).value;
        assert r.value.0 == [first] + rest.0;
        forall i | 0 <= i < |r.value.0|
          ensures exists key :: key in parsers && parsers[key](tokens, cursor) == Ok(r.value.0[i])
        {
          if i == 0 {
            assert parsers[e.elementValue](tokens, cursor) == Ok(r.value.0[i]);
          } else {
            assert r.value.0[i] == rest.0[i - 1];
          }
        }
      }
    }
  }

  /** Elements that are neither token nor expression elements have no effect:
      a "trail" element can be dropped from any pattern. */
  lemma SkippedElementIrrelevant(e: PatternElement, pattern: seq<PatternElement>, parsers: map<string, Parser>,
                                 tokens: seq<Token>, cursor: int)
    requires !IsTokenElement(e) && e.elementType != "expression"
    ensures Walk([e] + pattern, parsers, tokens, cursor) == Walk(pattern, parsers, tokens, cursor)
  {
    assert ([e] + pattern)[1..] == pattern;
  }

  /** Prefixes the children collected so far to the result of the rest. */
  function Prepend(children: seq<Node>, rest: Result<(seq<Node>, int)>): Result<(seq<Node>, int)>
  {
    if rest.Ok? then Ok((children + rest.value.0, rest.value.1)) else rest
  }

  /** `parse` as the source runs it: one pass over the pattern on a cursor. */
  method ParseSkeleton(kind: string, pattern: seq<PatternElement>, parsers: map<string, Parser>,
                       tokens: seq<Token>, position: int) returns (r: Result<Node>)
    ensures r == SkeletonParse(kind, pattern, parsers, tokens, position)
  {
    if |tokens| == 0 {
      return Err("TokenSequence: empty token list");
    }
    var cursor := position;
    var expressions: seq<Node> := [];
    var i := 0;
    assert pattern[0..] == pattern;
    assert Walk(pattern, parsers, tokens, position).Ok? ==>
      [] + Walk(pattern, parsers, tokens, position).value.0 == Walk(pattern, parsers, tokens, position).value.0;
    while i < |pattern|
      invariant 0 <= i <= |pattern|
      invariant Walk(pattern, parsers, tokens, position) ==
        Prepend(expressions, Walk(pattern[i..], parsers, tokens, cursor))
    {
      var e := pattern[i];
      assert pattern[i..][1..] == pattern[i + 1..];
      if IsTokenElement(e) {
        var token := PeekAt(tokens, cursor);
        if token.Err? {
          return Err(token.msg);
        }
        if Matches(e, token.value) {
          cursor := cursor + 1;
        }
      } else if e.elementType == "expression" && e.elementValue in parsers {
        var parse := parsers[e.elementValue];
        var expression := parse(tokens, cursor);
        if expression.Err? {
          return Err(expression.msg);
        }
        ghost var rest := Walk(pattern[i + 1..], parsers, tokens, cursor);
        if rest.Ok? {
          assert expressions + [expression.value] + rest.value.0 == expressions + ([expression.value] + rest.value.0);
        }
        expressions := expressions + [expression.value];
      }
      i := i + 1;
    }
    assert expressions + [] == expressions;
    r := Ok(Node(kind, position, cursor, expressions, [], map[]));
  }
}
