/** `ParentheticalParser` (src/components/parsing/ParentheticalParser.cpp):
    an inner expression between a begin and an end token. */
module ParentheticalParsers {
  import opened Wrappers
  import opened Tokens
  import opened Expressions
  import opened Parsing

  /** `parse`: the token at `position` must have the begin value; the inner
      parser starts right after it; the token where the inner tree ends must
      have the end value. The result wraps the inner tree, recording both
      tokens and covering the end token, or is the inner tree itself when
      parentheses are stripped. */
  function ParentheticalParse(kind: string, begin: string, end: string, inner: Parser,
                              strip: bool, tokens: seq<Token>, position: int): (r: Result<Node>)
    ensures r.Ok? ==>
      PeekAt(tokens, position).Ok? && PeekAt(tokens, position).value.value == begin &&
      inner(tokens, position + 1).Ok?
    ensures r.Ok? ==>
      var e := inner(tokens, position + 1).value;
      PeekAt(tokens, e.endPos).Ok? && PeekAt(tokens, e.endPos).value.value == end &&
      r.value == if strip then e
        else Node(kind, position, e.endPos + 1, [e],
                  [PeekAt(tokens, position).value, PeekAt(tokens, e.endPos).value], map[])
    ensures (PeekAt(tokens, position).Ok? && PeekAt(tokens, position).value.value == begin &&
             inner(tokens, position + 1).Ok? && PeekAt(tokens, inner(tokens, position + 1).value.endPos).Ok?) ==>
      r.Ok? == (PeekAt(tokens, inner(tokens, position + 1).value.endPos).value.value == end)
    ensures (PeekAt(tokens, position).Ok? && PeekAt(tokens, position).value.value != begin) ==>
      r == Err("Expected a '" + begin + "' but instead encountered '" + PeekAt(tokens, position).value.value + "'")
  {
    var beginToken :- PeekAt(tokens, position);
    if beginToken.value == begin then
      var e :- inner(tokens, position + 1);
      var endToken :- PeekAt(tokens, e.endPos);
      if endToken.value == end then
        if !strip then Ok(Node(kind, position, e.endPos + 1, [e], [beginToken, endToken], map[]))
        else Ok(e)
      else
        Err("Expected a '" + end + "' but instead encountered '" + endToken.value + "'")
    else
      Err("Expected a '" + begin + "' but instead encountered '" + beginToken.value + "'")
  }

  /** Wrapping advances whenever the inner parser does not go backwards: the
      wrapper always covers the end token after the inner tree. */
  lemma ParentheticalAdvances(kind: string, begin: string, end: string, inner: Parser, tokens: seq<Token>)
    requires forall p :: inner(tokens, p).Ok? ==> p <= inner(tokens, p).value.endPos
    ensures Advances((ts, p) => ParentheticalParse(kind, begin, end, inner, false, ts, p), tokens)
  {
    forall p | ParentheticalParse(kind, begin, end, inner, false, tokens, p).Ok?
      ensures p < ParentheticalParse(kind, begin, end, inner, false, tokens, p).value.endPos
    {
      assert inner(tokens, p + 1).Ok?;
    }
  }

  /** Stripping only drops the wrapper: both modes accept the same inputs,
      and the stripped result is the wrapper's only child. */
  lemma StripKeepsInner(kind: string, begin: string, end: string, inner: Parser, tokens: seq<Token>, position: int)
    ensures ParentheticalParse(kind, begin, end, inner, true, tokens, position).Ok? ==
            ParentheticalParse(kind, begin, end, inner, false, tokens, position).Ok?
    ensures ParentheticalParse(kind, begin, end, inner, false, tokens, position).Ok? ==>
      ParentheticalParse(kind, begin, end, inner, false, tokens, position).value.children ==
      [ParentheticalParse(kind, begin, end, inner, true, tokens, position).value]
  {
  }

  class ParentheticalParser {
    const kind: string
    const begin: string
    const end: string
    const inner: Parser
    var stripParentheses: bool

    /** Stripping is off until `setStripParentheses` turns it on. */
    constructor (kind: string, begin: string, end: string, inner: Parser)
      ensures this.kind == kind && this.begin == begin && this.end == end && this.inner == inner
      ensures !stripParentheses
    {
      this.kind := kind;
      this.begin := begin;
      this.end := end;
      this.inner := inner;
      stripParentheses := false;
    }

    method SetStripParentheses(stripParentheses: bool)
      modifies this
      ensures this.stripParentheses == stripParentheses
    {
      this.stripParentheses := stripParentheses;
    }

    function Parse(tokens: seq<Token>, position: int): Result<Node>
      reads this
    {
      ParentheticalParse(kind, begin, end, inner, stripParentheses, tokens, position)
    }
  }
}
