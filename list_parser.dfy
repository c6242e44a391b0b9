/** `ListParser` (src/components/parsing/ListParser.cpp): a chain of elements
    between a begin and an end token, the separator being optional just
    before the end token. */
module ListParsers {
  import opened Wrappers
  import opened Tokens
  import opened Expressions
  import opened Parsing
  import opened ChainParsers
  import opened ParentheticalParsers

  /** The separator rule of the inner chain: optional exactly when the token
      at the position is the end token; `vector::at` throws outside the
      list. */
  function EndRule(end: string): (rule: Rule)
    ensures forall tokens: seq<Token>, p: int :: 0 <= p < |tokens| ==> rule(tokens, p) == Ok(tokens[p].value == end)
    ensures forall tokens: seq<Token>, p: int :: !(0 <= p < |tokens|) ==> rule(tokens, p).Err?
  {
    (tokens: seq<Token>, p: int) =>
      if 0 <= p < |tokens| then Ok(tokens[p].value == end) else Err("vector::at: position out of range")
  }

  /** The inner chain: the list's type and separator, and the end rule. */
  function ListChain(kind: string, end: string, separator: string, element: Element): (c: Chain)
    ensures c.kind == kind && c.separator == separator && c.element == element
  {
    Chain(kind, separator, element, EndRule(end))
  }

  /** `parse`: the inner chain inside a parenthetical wrapper of type
      "___PARENTHETICAL___"; the result is the chain, not the wrapper, with
      its end moved past the end token. */
  function ListParse(kind: string, begin: string, end: string, separator: string, element: Element,
                     tokens: seq<Token>, position: int): Result<Node>
  {
    var wrapper :- ParentheticalParse("___PARENTHETICAL___", begin, end,
      (ts, p) => ChainParse(ListChain(kind, end, separator, element), ts, p), false, tokens, position);
    var chain := wrapper.children[0];
    Ok(chain.(endPos := chain.endPos + 1))
  }

  /** A list is a begin token, a chain of the list's type starting right after
      it, and an end token where the chain stops; the result is that chain
      extended over the end token. */
  lemma ListIsChainInBrackets(kind: string, begin: string, end: string, separator: string, element: Element,
                              tokens: seq<Token>, position: int)
    ensures var chain := ChainParse(ListChain(kind, end, separator, element), tokens, position + 1);
      ListParse(kind, begin, end, separator, element, tokens, position).Ok? <==>
        PeekAt(tokens, position).Ok? && PeekAt(tokens, position).value.value == begin &&
        chain.Ok? && PeekAt(tokens, chain.value.endPos).Ok? &&
        PeekAt(tokens, chain.value.endPos).value.value == end
    ensures var chain := ChainParse(ListChain(kind, end, separator, element), tokens, position + 1);
      ListParse(kind, begin, end, separator, element, tokens, position).Ok? ==>
        ListParse(kind, begin, end, separator, element, tokens, position).value ==
        chain.value.(endPos := chain.value.endPos + 1)
  {
  }
}
