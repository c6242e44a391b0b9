/** Parse trees. `Node` is the value the parsers build and return (the
    `DExpression` struct of the older parsers and the `Expression` objects of
    the newer ones); `Expression` is the mutable node of
    src/components/parsing/Expression.cpp, kept as a class for `addChild`. */
module Expressions {
  import opened Wrappers
  import opened Tokens

  /** A parse-tree node: its type, its span of token positions, its children
      in order, the tokens it records (operators, brackets) and its named
      attributes ("sub-types"). Nodes of the older parsers leave the last two
      empty. */
  datatype Node = Node(
    kind: string,
    startPos: int,
    endPos: int,
    children: seq<Node>,
    tokens: seq<Token>,
    subTypes: map<string, string>)

  /** A node with the given type and span and nothing else. */
  function Leaf(kind: string, startPos: int, endPos: int): Node
  {
    Node(kind, startPos, endPos, [], [], map[])
  }

  /** The value of a node's root token, read by the precedence lookup and the
      number generator. The accessor is not part of the shown `Expression`;
      the model takes the first token the node records, and no value when it
      records none. */
  function RootTokenValue(n: Node): Option<string>
  {
    if |n.tokens| > 0 then Some(n.tokens[0].value) else None
  }

  /** The mutable tree node with its parent link. */
  class Expression {
    const kind: string
    const startPos: int
    const endPos: int
    var children: seq<Expression>
    var parent: Expression?

    constructor (kind: string, startPos: int, endPos: int)
      ensures this.kind == kind && this.startPos == startPos && this.endPos == endPos
      ensures children == [] && parent == null
    {
      this.kind := kind;
      this.startPos := startPos;
      this.endPos := endPos;
      children := [];
      parent := null;
    }

    method SetParent(parent: Expression?)
      modifies this
      ensures this.parent == parent && children == old(children)
    {
      this.parent := parent;
    }

    /** `addChild(expression, child)`: appends `child` after the existing
        children of `expression` and makes `expression` its parent. */
    static method AddChild(expression: Expression, child: Expression)
      modifies expression, child
      ensures expression.children == old(expression.children) + [child]
      ensures child.parent == expression
      ensures expression != child ==> child.children == old(child.children)
      ensures expression != child ==> expression.parent == old(expression.parent)
    {
      expression.children := expression.children + [child];
      child.SetParent(expression);
    }
  }
}
