/** `MyLanguage::ChainParser` (src/my-language/parser/ChainParser.cpp): the
    language's statement chain, where a separator may be left out next to a
    closing brace. */
module LanguageChainParser {
  import opened Wrappers
  import opened Tokens
  import opened Expressions
  import opened ChainParsers

  /** The rule: a `;` is optional when the current or the previous token is
      "}", looking only at the neighbours that exist. A negative position, or
      one more than one past the end, makes `vector::at` throw. */
  function BraceRule(tokens: seq<Token>, position: int): Result<bool>
  {
    if position > 0 && position < |tokens| then
      Ok(tokens[position].value == "}" || tokens[position - 1].value == "}")
    else if position < |tokens| then
      if position < 0 then Err("vector::at: position out of range") else Ok(tokens[position].value == "}")
    else if position > 0 then
      if position - 1 < |tokens| then Ok(tokens[position - 1].value == "}") else Err("vector::at: position out of range")
    else
      Ok(false)
  }

  /** What the rule decides at each kind of position. */
  lemma BraceRuleCases(tokens: seq<Token>, position: int)
    ensures 0 < position < |tokens| ==>
      BraceRule(tokens, position) == Ok(tokens[position].value == "}" || tokens[position - 1].value == "}")
    ensures 0 == position < |tokens| ==> BraceRule(tokens, position) == Ok(tokens[0].value == "}")
    ensures 0 < position == |tokens| ==> BraceRule(tokens, position) == Ok(tokens[position - 1].value == "}")
    ensures |tokens| == 0 && position == 0 ==> BraceRule(tokens, position) == Ok(false)
    ensures BraceRule(tokens, position).Err? <==> position < 0 || position > |tokens|
  {
  }

  /** The chain the parser delegates to: type "chain", separator ";". */
  function StatementChain(element: Element): (c: Chain)
    ensures c.kind == "chain" && c.separator == ";" && c.element == element
    ensures forall tokens, position :: c.separatorOptional(tokens, position) == BraceRule(tokens, position)
  {
    Chain("chain", ";", element, BraceRule)
  }

  /** `parse` delegates to the configured chain. */
  function Parse(element: Element, tokens: seq<Token>, position: int): Result<Node>
  {
    ChainParse(StatementChain(element), tokens, position)
  }

  /** A statement after a block needs no `;`: after a "}" the rule is true. */
  lemma SeparatorOptionalAfterBrace(tokens: seq<Token>, position: int)
    requires 0 < position <= |tokens| && tokens[position - 1].value == "}"
    ensures BraceRule(tokens, position) == Ok(true)
  {
  }
}
