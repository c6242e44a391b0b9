/** `MyLanguage::IRCommandFactory`
    (src/my-language/ir-generator/IRCommandFactory.cpp): builds IR commands
    as syntax-tree nodes and hands out fresh variable names. */
module IRCommandFactories {
  import opened Expressions
  import opened Decimal

  /** `createExpression`: a node of the given type with no span and exactly
      one sub-type. */
  function CreateExpression(kind: string, attribute: string, value: string): (n: Node)
    ensures n.kind == kind && n.startPos == -1 && n.endPos == -1
    ensures n.children == [] && n.tokens == []
    ensures n.subTypes.Keys == {attribute} && n.subTypes[attribute] == value
  {
    Node(kind, -1, -1, [], [], map[attribute := value])
  }

  /** A "variable" node naming `name`. */
  function VariableNode(name: string): Node
  {
    CreateExpression("variable", "name", name)
  }

  /** The list `createVariableList` builds: a "variable-list" node with one
      "variable" child per name, in order. */
  function VariableListNode(variables: seq<string>): Node
  {
    Node("variable-list", -1, -1, seq(|variables|, i requires 0 <= i < |variables| => VariableNode(variables[i])), [], map[])
  }

  /** The names a variable list holds, read back from its children. */
  function ListedNames(list: Node): seq<string>
  {
    seq(|list.children|, i requires 0 <= i < |list.children| =>
      if "name" in list.children[i].subTypes then list.children[i].subTypes["name"] else "")
  }

  /** The list gives back exactly the names it was built from. */
  lemma VariableListRoundTrip(variables: seq<string>)
    ensures VariableListNode(variables).kind == "variable-list"
    ensures ListedNames(VariableListNode(variables)) == variables
  {
  }

  /** `createVariableList` as the source builds it, one child at a time. */
  method CreateVariableList(variables: seq<string>) returns (root: Node)
    ensures root == VariableListNode(variables)
  {
    root := Node("variable-list", -1, -1, [], [], map[]);
    for i := 0 to |variables|
      invariant root == Node("variable-list", -1, -1,
        seq(i, k requires 0 <= k < i => VariableNode(variables[k])), [], map[])
    {
      root := root.(children := root.children + [VariableNode(variables[i])]);
    }
  }

  /** `createLoadIntConst`: an "irCommand" whose command is LoadIntConst,
      with the number and then the target variable as children. */
  function CreateLoadIntConst(value: string, variable: string): (c: Node)
    ensures c.kind == "irCommand" && c.subTypes == map["command" := "LoadIntConst"]
    ensures |c.children| == 2
    ensures c.children[0].kind == "number" && c.children[0].subTypes == map["value" := value]
    ensures c.children[1].kind == "variable" && c.children[1].subTypes == map["name" := variable]
  {
    CreateExpression("irCommand", "command", "LoadIntConst").(children :=
      [CreateExpression("number", "value", value), VariableNode(variable)])
  }

  /** `createCall`: an "irCommand" whose command is Call, with the function
      name, the argument list and the output variable as children. */
  function CreateCall(functionName: string, arguments: seq<string>, output: string): (c: Node)
    ensures c.kind == "irCommand" && c.subTypes == map["command" := "Call"]
    ensures |c.children| == 3
    ensures c.children[0].kind == "function" && c.children[0].subTypes == map["name" := functionName]
    ensures ListedNames(c.children[1]) == arguments && c.children[1].kind == "variable-list"
    ensures c.children[2].kind == "variable" && c.children[2].subTypes == map["name" := output]
  {
    VariableListRoundTrip(arguments);
    CreateExpression("irCommand", "command", "Call").(children :=
      [CreateExpression("function", "name", functionName), VariableListNode(arguments), VariableNode(output)])
  }

  /** The name of the variable with number `id`. */
  function VariableName(id: int): (v: string)
    ensures |v| >= 2 && v[0] == 'x'
  {
    IntToStringSign(id);
    "x" + IntToString(id)
  }

  /** Different numbers give different names. */
  lemma VariableNamesDistinct(a: int, b: int)
    requires a != b
    ensures VariableName(a) != VariableName(b)
  {
    if VariableName(a) == VariableName(b) {
      assert IntToString(a) == VariableName(a)[1..];
      assert IntToString(b) == VariableName(b)[1..];
      IntToStringInjective(a, b);
    }
  }

  /** The factory's counter, starting at 1. */
  class IRCommandFactory {
    var variableId: int

    constructor ()
      ensures variableId == 1
    {
      variableId := 1;
    }

    /** `nextVariable`: the name for the current number, which then moves on
        by one; names handed out one after another are x1, x2, ... */
    method NextVariable() returns (v: string)
      modifies this
      ensures v == VariableName(old(variableId))
      ensures variableId == old(variableId) + 1
    {
      v := "x" + IntToString(variableId);
      variableId := variableId + 1;
    }
  }
}
