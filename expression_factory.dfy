/** `MyLanguage::ExpressionFactory` (src/my-language/parser/ExpressionFactory.cpp):
    builds syntax-tree nodes for functions and their parameters by hand. */
module ExpressionFactories {
  import opened Expressions
  import opened Decimal

  /** `createFunctionParameter`: a "function-parameter" node with no span,
      its name and its declared type as sub-types. */
  function CreateFunctionParameter(name: string, explicitType: string): (p: Node)
    ensures p.kind == "function-parameter" && p.startPos == -1 && p.endPos == -1
    ensures p.children == [] && p.tokens == []
    ensures p.subTypes.Keys == {"name", "explicit-type"}
    ensures p.subTypes["name"] == name && p.subTypes["explicit-type"] == explicitType
  {
    Node("function-parameter", -1, -1, [], [], map["name" := name, "explicit-type" := explicitType])
  }

  /** How many of the statements are return statements. */
  function CountReturns(statements: seq<Node>): (n: nat)
    ensures n <= |statements|
  {
    if statements == [] then 0
    else CountReturns(statements[..|statements| - 1]) + (if statements[|statements| - 1].kind == "return" then 1 else 0)
  }

  /** Counting distributes over concatenation. */
  lemma {:induction false} CountReturnsAppend(a: seq<Node>, b: seq<Node>)
    ensures CountReturns(a + b) == CountReturns(a) + CountReturns(b)
    decreases |b|
  {
    if b == [] {
      assert a + b == a;
    } else {
      assert (a + b)[..|a + b| - 1] == a + b[..|b| - 1];
      CountReturnsAppend(a, b[..|b| - 1]);
    }
  }

  /** The count is zero exactly when no statement is a return. */
  lemma {:induction false} CountReturnsZero(statements: seq<Node>)
    ensures CountReturns(statements) == 0 <==> forall i :: 0 <= i < |statements| ==> statements[i].kind != "return"
    decreases |statements|
  {
    if statements != [] {
      var init := statements[..|statements| - 1];
      CountReturnsZero(init);
      if CountReturns(statements) == 0 {
        forall i | 0 <= i < |statements|
          ensures statements[i].kind != "return"
        {
          if i < |statements| - 1 {
            assert statements[i] == init[i];
          }
        }
      } else if statements[|statements| - 1].kind != "return" {
        var i :| 0 <= i < |init| && init[i].kind == "return";
        assert statements[i] == init[i];
      }
    }
  }

  /** The function node `createFunction` builds: type "function" at (0, 0);
      sub-types name, return type and the decimal count of return
      statements; children a "function-parameter-list" holding the
      parameters and a "function-definition" holding the statements, both at
      (0, 0). */
  function FunctionNode(name: string, returnType: string, parameters: seq<Node>, definitions: seq<Node>): Node
  {
    Node("function", 0, 0,
      [Node("function-parameter-list", 0, 0, parameters, [], map[]),
       Node("function-definition", 0, 0, definitions, [], map[])],
      [],
      map["name" := name, "return-type" := returnType, "returns-amount" := IntToString(CountReturns(definitions))])
  }

  /** The function node's parts are read back unchanged: its name, return
      type, parameters in order and statements in order. A function whose
      statements contain no return has a returns-amount of "0". */
  lemma FunctionNodeParts(name: string, returnType: string, parameters: seq<Node>, definitions: seq<Node>)
    ensures var f := FunctionNode(name, returnType, parameters, definitions);
      f.subTypes["name"] == name && f.subTypes["return-type"] == returnType &&
      |f.children| == 2 &&
      f.children[0].kind == "function-parameter-list" && f.children[0].children == parameters &&
      f.children[1].kind == "function-definition" && f.children[1].children == definitions
    ensures (forall i :: 0 <= i < |definitions| ==> definitions[i].kind != "return") ==>
      FunctionNode(name, returnType, parameters, definitions).subTypes["returns-amount"] == "0"
  {
    CountReturnsZero(definitions);
  }

  /** Different return counts give different returns-amount attributes. */
  lemma ReturnsAmountDistinguishes(name: string, returnType: string, parameters: seq<Node>, a: seq<Node>, b: seq<Node>)
    requires CountReturns(a) != CountReturns(b)
    ensures FunctionNode(name, returnType, parameters, a).subTypes["returns-amount"] !=
      FunctionNode(name, returnType, parameters, b).subTypes["returns-amount"]
  {
    if IntToString(CountReturns(a)) == IntToString(CountReturns(b)) {
      IntToStringInjective(CountReturns(a), CountReturns(b));
    }
  }

  /** `createFunction` as the source builds it: the two lists are filled one
      child at a time and the returns are counted over the definition's
      children. */
  method CreateFunction(name: string, returnType: string, parameters: seq<Node>, definitions: seq<Node>)
    returns (f: Node)
    ensures f == FunctionNode(name, returnType, parameters, definitions)
  {
    var parameterList := Node("function-parameter-list", 0, 0, [], [], map[]);
    for i := 0 to |parameters|
      invariant parameterList == Node("function-parameter-list", 0, 0, parameters[..i], [], map[])
    {
      assert parameters[..i + 1] == parameters[..i] + [parameters[i]];
      parameterList := parameterList.(children := parameterList.children + [parameters[i]]);
    }
    assert parameters[..|parameters|] == parameters;
    var definition := Node("function-definition", 0, 0, [], [], map[]);
    for i := 0 to |definitions|
      invariant definition == Node("function-definition", 0, 0, definitions[..i], [], map[])
    {
      assert definitions[..i + 1] == definitions[..i] + [definitions[i]];
      definition := definition.(children := definition.children + [definitions[i]]);
    }
    assert definitions[..|definitions|] == definitions;
    f := Node("function", 0, 0, [parameterList, definition], [], map["name" := name, "return-type" := returnType]);
    var statements := f.children[1].children;
    var returnCount := 0;
    for i := 0 to |statements|
      invariant returnCount == CountReturns(statements[..i])
    {
      assert statements[..i + 1][..i] == statements[..i];
      if statements[i].kind == "return" {
        returnCount := returnCount + 1;
      }
    }
    assert statements[..|statements|] == statements;
    f := f.(subTypes := f.subTypes["returns-amount" := IntToString(returnCount)]);
  }
}
