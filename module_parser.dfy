/** `MyLanguage::ModuleParser` (src/my-language/parser/ModuleParser.cpp): the
    top-level chain of a module and the chain of a function body. */
module ModuleParsers {
  import opened Wrappers
  import opened Tokens
  import opened Expressions
  import opened ChainParsers

  /** Inside a function definition the separator is never optional. */
  function FunctionDefinitionRule(tokens: seq<Token>, position: int): (r: Result<bool>)
    ensures r == Ok(false)
  {
    Ok(false)
  }

  /** At module level a `;` is optional only right after a "}"; at position 0
      it is required; one past the end `vector::at` throws. */
  function ModuleRule(tokens: seq<Token>, position: int): (r: Result<bool>)
    ensures 0 < position <= |tokens| ==> r == Ok(tokens[position - 1].value == "}")
    ensures position <= 0 ==> r == Ok(false)
    ensures r.Err? <==> position > |tokens|
  {
    if position > 0 then
      if position - 1 < |tokens| then Ok(tokens[position - 1].value == "}")
      else Err("vector::at: position out of range")
    else Ok(false)
  }

  /** The function-body chain: type "function-definition", separator ";". */
  function FunctionDefinitionChain(statement: Element): (c: Chain)
    ensures c.kind == "function-definition" && c.separator == ";" && c.element == statement
  {
    Chain("function-definition", ";", statement, FunctionDefinitionRule)
  }

  /** The module chain: type "module", separator ";", over the statements. */
  function ModuleChain(statement: Element): (c: Chain)
    ensures c.kind == "module" && c.separator == ";" && c.element == statement
  {
    Chain("module", ";", statement, ModuleRule)
  }

  /** `parse` delegates to the module chain. */
  function Parse(statement: Element, tokens: seq<Token>, position: int): Result<Node>
  {
    ChainParse(ModuleChain(statement), tokens, position)
  }

  /** In a function body every statement must be followed by `;`: a statement
      whose next token is not `;` makes the chain fail. */
  lemma FunctionBodyNeedsSeparators(statement: Element, tokens: seq<Token>, position: int)
    requires 0 <= position && |tokens| > 0
    requires statement.canParseAt(tokens, position) && statement.parse(tokens, position).Ok?
    requires var e := statement.parse(tokens, position).value;
      position < e.endPos < |tokens| && tokens[e.endPos].value != ";"
    ensures ChainParse(FunctionDefinitionChain(statement), tokens, position).Err?
  {
    ChainMissingSeparator(FunctionDefinitionChain(statement), tokens, position);
  }
}
