/** `MyLanguage::IRGenerator` (src/my-language/ir-generator/IRGenerator.cpp):
    turns a syntax tree into a list of IR commands, children before their
    parent, each node by the generator registered for its type. */
module IRGenerators {
  import opened Wrappers
  import opened Expressions
  import opened IRCommandFactories
  import FoldableNode

  /** What generating a node yields: the variable holding its value ("None"
      when there is none) and the commands emitted. */
  datatype GeneratorResult = GeneratorResult(variable: string, commands: seq<Node>)

  /** The types with a registered generator. */
  const Generators: set<string> := {"number", "chain"}

  /** Whether a node can be generated: a chain, or a number with the root
      token its value is read from. */
  predicate Generatable(n: Node)
  {
    n.kind == "chain" || (n.kind == "number" && RootTokenValue(n).Some?)
  }

  /** The commands of the results, one result after the other. */
  function Concat(results: seq<GeneratorResult>): seq<Node>
  {
    if results == [] then [] else results[0].commands + Concat(results[1..])
  }

  /** `generateNumber`: one LoadIntConst of the root token's value into the
      fresh variable numbered `id`. */
  function NumberResult(n: Node, id: int): GeneratorResult
    requires RootTokenValue(n).Some?
  {
    GeneratorResult(VariableName(id), [CreateLoadIntConst(RootTokenValue(n).value, VariableName(id))])
  }

  /** Generation of a tree whose fresh variables start at number `id`: the
      children first, left to right, then the node from their results; the
      result and the next free number. */
  function GenerateTree(node: Node, id: int): Result<(GeneratorResult, int)>
    decreases node, 1
  {
    var children :- GenerateForest(node.children, id);
    if node.kind !in Generators then Err("No generator found for type: '" + node.kind + "'.")
    else if node.kind == "number" then
      if RootTokenValue(node).None? then Err("Expression: no root token")
      else Ok((NumberResult(node, children.1), children.1 + 1))
    else Ok((GeneratorResult("None", Concat(children.0)), children.1))
  }

  function GenerateForest(nodes: seq<Node>, id: int): Result<(seq<GeneratorResult>, int)>
    decreases nodes, 0
  {
    if nodes == [] then Ok(([], id))
    else
      var first :- GenerateTree(nodes[0], id);
      var rest :- GenerateForest(nodes[1..], first.1);
      Ok(([first.0] + rest.0, rest.1))
  }

  /** The variable a LoadIntConst command loads into. */
  function LoadedVariable(c: Node): string
  {
    if |c.children| >= 2 && "name" in c.children[1].subTypes then c.children[1].subTypes["name"] else ""
  }

  /** Every command is a LoadIntConst, and the variables loaded are the ones
      numbered `id`, `id + 1`, ..., `next - 1`, in order. */
  ghost predicate FreshLoads(commands: seq<Node>, id: int, next: int)
  {
    id <= next && |commands| == next - id &&
    forall i :: 0 <= i < |commands| ==>
      commands[i].subTypes == map["command" := "LoadIntConst"] && LoadedVariable(commands[i]) == VariableName(id + i)
  }

  lemma FreshLoadsAppend(a: seq<Node>, b: seq<Node>, id: int, middle: int, next: int)
    requires FreshLoads(a, id, middle) && FreshLoads(b, middle, next)
    ensures FreshLoads(a + b, id, next)
  {
    forall i | 0 <= i < |a + b|
      ensures (a + b)[i].subTypes == map["command" := "LoadIntConst"] && LoadedVariable((a + b)[i]) == VariableName(id + i)
    {
      if i >= |a| {
        assert (a + b)[i] == b[i - |a|];
      }
    }
  }

  /** Number nodes are leaves, as the parsers build them. A number with
      children would use up variable numbers for commands it then drops. */
  ghost predicate NumbersAreLeaves(nodes: seq<Node>)
  {
    forall m :: m in nodes && m.kind == "number" ==> m.children == []
  }

  /** Numbers are loaded into consecutive fresh variables, in post-order:
      the n-th command of a tree generated from `id` loads variable
      `id + n`, and the next free number is one past the last. */
  lemma {:induction false} GenerateTreeLoadsFresh(node: Node, id: int)
    requires NumbersAreLeaves(FoldableNode.PostOrder(node))
    ensures GenerateTree(node, id).Ok? ==>
      FreshLoads(GenerateTree(node, id).value.0.commands, id, GenerateTree(node, id).value.1)
    decreases node, 1
  {
    assert FoldableNode.PostOrder(node) == FoldableNode.PostOrderAll(node.children) + [node];
    GenerateForestLoadsFresh(node.children, id);
    if GenerateTree(node, id).Ok? && node.kind == "number" {
      assert node in FoldableNode.PostOrder(node);
      assert GenerateForest(node.children, id) == Ok(([], id));
      var c := CreateLoadIntConst(RootTokenValue(node).value, VariableName(id));
      assert GenerateTree(node, id).value.0.commands == [c];
      assert LoadedVariable(c) == VariableName(id + 0);
    }
  }

  lemma {:induction false} GenerateForestLoadsFresh(nodes: seq<Node>, id: int)
    requires NumbersAreLeaves(FoldableNode.PostOrderAll(nodes))
    ensures GenerateForest(nodes, id).Ok? ==>
      FreshLoads(Concat(GenerateForest(nodes, id).value.0), id, GenerateForest(nodes, id).value.1)
    decreases nodes, 0
  {
    if nodes != [] && GenerateForest(nodes, id).Ok? {
      assert FoldableNode.PostOrderAll(nodes) == FoldableNode.PostOrder(nodes[0]) + FoldableNode.PostOrderAll(nodes[1..]);
      var first := GenerateTree(nodes[0], id).value;
      GenerateTreeLoadsFresh(nodes[0], id);
      GenerateForestLoadsFresh(nodes[1..], first.1);
      var rest := GenerateForest(nodes[1..], first.1).value;
      assert Concat([first.0] + rest.0) == first.0.commands + Concat(rest.0) by {
        assert ([first.0] + rest.0)[1..] == rest.0;
      }
      FreshLoadsAppend(first.0.commands, Concat(rest.0), id, first.1, rest.1);
    }
  }

  /** Consecutive fresh loads never repeat a variable. */
  lemma DistinctLoads(commands: seq<Node>, id: int, next: int)
    requires FreshLoads(commands, id, next)
    ensures forall i, j :: 0 <= i < j < |commands| ==> LoadedVariable(commands[i]) != LoadedVariable(commands[j])
  {
    forall i, j | 0 <= i < j < |commands|
      ensures LoadedVariable(commands[i]) != LoadedVariable(commands[j])
    {
      VariableNamesDistinct(id + i, id + j);
    }
  }

  /** No two commands of a generated program load the same variable. */
  lemma GeneratedVariablesDistinct(node: Node, id: int)
    requires NumbersAreLeaves(FoldableNode.PostOrder(node))
    requires GenerateTree(node, id).Ok?
    ensures var commands := GenerateTree(node, id).value.0.commands;
      forall i, j :: 0 <= i < j < |commands| ==> LoadedVariable(commands[i]) != LoadedVariable(commands[j])
  {
    GenerateTreeLoadsFresh(node, id);
    var commands := GenerateTree(node, id).value.0.commands;
    DistinctLoads(commands, id, GenerateTree(node, id).value.1);
  }

  /** Generation fails exactly when some node of the tree has no generator
      (or is a number without its root token), whatever the counter. */
  lemma {:induction false} GenerateTreeFailsIff(node: Node, id: int)
    ensures GenerateTree(node, id).Err? <==> exists m :: m in FoldableNode.PostOrder(node) && !Generatable(m)
    decreases node, 1
  {
    GenerateForestFailsIff(node.children, id);
    assert FoldableNode.PostOrder(node) == FoldableNode.PostOrderAll(node.children) + [node];
    assert node in FoldableNode.PostOrder(node);
    if GenerateForest(node.children, id).Ok? && !Generatable(node) {
      assert GenerateTree(node, id).Err?;
    }
  }

  lemma {:induction false} GenerateForestFailsIff(nodes: seq<Node>, id: int)
    ensures GenerateForest(nodes, id).Err? <==> exists m :: m in FoldableNode.PostOrderAll(nodes) && !Generatable(m)
    decreases nodes, 0
  {
    if nodes != [] {
      GenerateTreeFailsIff(nodes[0], id);
      var all := FoldableNode.PostOrderAll(nodes);
      assert all == FoldableNode.PostOrder(nodes[0]) + FoldableNode.PostOrderAll(nodes[1..]);
      if GenerateTree(nodes[0], id).Ok? {
        GenerateForestFailsIff(nodes[1..], GenerateTree(nodes[0], id).value.1);
      }
    }
  }

  /** The generator with its command factory. */
  class IRGenerator {
    const commandFactory: IRCommandFactory

    constructor ()
      ensures fresh(commandFactory) && commandFactory.variableId == 1
    {
      commandFactory := new IRCommandFactory();
    }

    /** `generateNumber`: loads the node's value into a fresh variable. */
    method GenerateNumber(expression: Node) returns (r: GeneratorResult)
      requires RootTokenValue(expression).Some?
      modifies commandFactory
      ensures r == NumberResult(expression, old(commandFactory.variableId))
      ensures commandFactory.variableId == old(commandFactory.variableId) + 1
    {
      var variable := commandFactory.NextVariable();
      var command := CreateLoadIntConst(RootTokenValue(expression).value, variable);
      r := GeneratorResult(variable, [command]);
    }

    /** `generateChain`: no variable, and the children's commands one after
        the other. */
    method GenerateChain(childResults: seq<GeneratorResult>) returns (r: GeneratorResult)
      ensures r == GeneratorResult("None", Concat(childResults))
    {
      r := GeneratorResult("None", []);
      for i := 0 to |childResults|
        invariant r.variable == "None" && r.commands + Concat(childResults[i..]) == Concat(childResults)
      {
        assert childResults[i..][1..] == childResults[i + 1..];
        r := r.(commands := r.commands + childResults[i].commands);
      }
    }

    /** The fold step for one node, after its children. */
    method GenerateNode(node: Node) returns (r: Result<GeneratorResult>)
      modifies commandFactory
      ensures var spec := GenerateTree(node, old(commandFactory.variableId));
        (r.Ok? <==> spec.Ok?) &&
        (spec.Ok? ==> r.value == spec.value.0 && commandFactory.variableId == spec.value.1) &&
        (spec.Err? ==> r == Err(spec.msg))
      decreases node, 1
    {
      var children := GenerateChildren(node.children);
      if children.Err? {
        return Err(children.msg);
      }
      if node.kind !in Generators {
        return Err("No generator found for type: '" + node.kind + "'.");
      }
      if node.kind == "number" {
        if RootTokenValue(node).None? {
          return Err("Expression: no root token");
        }
        var result := GenerateNumber(node);
        return Ok(result);
      }
      var result := GenerateChain(children.value);
      return Ok(result);
    }

    /** Generates the children in order, threading the counter. */
    method GenerateChildren(nodes: seq<Node>) returns (r: Result<seq<GeneratorResult>>)
      modifies commandFactory
      ensures var spec := GenerateForest(nodes, old(commandFactory.variableId));
        (r.Ok? <==> spec.Ok?) &&
        (spec.Ok? ==> r.value == spec.value.0 && commandFactory.variableId == spec.value.1) &&
        (spec.Err? ==> r == Err(spec.msg))
      decreases nodes, 0
    {
      if nodes == [] {
        return Ok([]);
      }
      var first := GenerateNode(nodes[0]);
      if first.Err? {
        return Err(first.msg);
      }
      var rest := GenerateChildren(nodes[1..]);
      if rest.Err? {
        return Err(rest.msg);
      }
      return Ok([first.value] + rest.value);
    }

    /** `generate`: the commands of the whole tree. */
    method Generate(root: Node) returns (r: Result<seq<Node>>)
      modifies commandFactory
      ensures var spec := GenerateTree(root, old(commandFactory.variableId));
        (spec.Ok? ==> r == Ok(spec.value.0.commands)) && (spec.Err? ==> r == Err(spec.msg))
    {
      var result := GenerateNode(root);
      if result.Err? {
        return Err(result.msg);
      }
      return Ok(result.value.commands);
    }
  }
}
