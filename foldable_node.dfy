/** `FoldableNode::fold` (src/components/data_structures/FoldableNode.h): a
    fold over a tree that visits the children left to right, threading the
    accumulator, and then the node itself. */
module FoldableNode {
  import opened Expressions

  /** Folds `f` over the tree rooted at `node`, starting from `acc`. */
  function Fold<A>(f: (A, Node) -> A, acc: A, node: Node): A
    decreases node, 1
  {
    if |node.children| == 0 then f(acc, node)
    else f(FoldChildren(f, acc, node.children), node)
  }

  /** The `for_each` over the children: each child's fold starts from the
      accumulator the previous one returned. */
  function FoldChildren<A>(f: (A, Node) -> A, acc: A, children: seq<Node>): A
    decreases children, 0
  {
    if children == [] then acc
    else FoldChildren(f, Fold(f, acc, children[0]), children[1..])
  }

  /** The nodes of a tree in post-order: every child subtree, left to right,
      then the node. */
  function PostOrder(node: Node): seq<Node>
    decreases node, 1
  {
    PostOrderAll(node.children) + [node]
  }

  function PostOrderAll(nodes: seq<Node>): seq<Node>
    decreases nodes, 0
  {
    if nodes == [] then [] else PostOrder(nodes[0]) + PostOrderAll(nodes[1..])
  }

  /** A plain left fold over a list. */
  function FoldLeft<A>(f: (A, Node) -> A, acc: A, nodes: seq<Node>): A
  {
    if nodes == [] then acc else FoldLeft(f, f(acc, nodes[0]), nodes[1..])
  }

  /** Number of nodes in a tree. */
  function Size(node: Node): nat
    decreases node, 1
  {
    1 + SizeAll(node.children)
  }

  function SizeAll(nodes: seq<Node>): nat
    decreases nodes, 0
  {
    if nodes == [] then 0 else Size(nodes[0]) + SizeAll(nodes[1..])
  }

  lemma {:induction false} FoldLeftAppend<A>(f: (A, Node) -> A, acc: A, xs: seq<Node>, ys: seq<Node>)
    ensures FoldLeft(f, acc, xs + ys) == FoldLeft(f, FoldLeft(f, acc, xs), ys)
  {
    if xs != [] {
      assert (xs + ys)[0] == xs[0] && (xs + ys)[1..] == xs[1..] + ys;
      FoldLeftAppend(f, f(acc, xs[0]), xs[1..], ys);
    } else {
      assert xs + ys == ys;
    }
  }

  /** `fold` is the left fold of `f` over the post-order list of the tree. */
  lemma {:induction false} FoldIsPostOrderFold<A>(f: (A, Node) -> A, acc: A, node: Node)
    ensures Fold(f, acc, node) == FoldLeft(f, acc, PostOrder(node))
    decreases node, 1
  {
    FoldChildrenIsPostOrderFold(f, acc, node.children);
    FoldLeftAppend(f, acc, PostOrderAll(node.children), [node]);
  }

  lemma {:induction false} FoldChildrenIsPostOrderFold<A>(f: (A, Node) -> A, acc: A, children: seq<Node>)
    ensures FoldChildren(f, acc, children) == FoldLeft(f, acc, PostOrderAll(children))
    decreases children, 0
  {
    if children != [] {
      FoldIsPostOrderFold(f, acc, children[0]);
      FoldChildrenIsPostOrderFold(f, Fold(f, acc, children[0]), children[1..]);
      FoldLeftAppend(f, acc, PostOrder(children[0]), PostOrderAll(children[1..]));
    }
  }

  /** Every node of the tree is visited once: the post-order list has one
      entry per node, ending with the root. */
  lemma {:induction false} PostOrderCoversTree(node: Node)
    ensures |PostOrder(node)| == Size(node)
    ensures PostOrder(node)[|PostOrder(node)| - 1] == node
    decreases node, 1
  {
    PostOrderAllCoversTrees(node.children);
  }

  lemma {:induction false} PostOrderAllCoversTrees(nodes: seq<Node>)
    ensures |PostOrderAll(nodes)| == SizeAll(nodes)
    decreases nodes, 0
  {
    if nodes != [] {
      PostOrderCoversTree(nodes[0]);
      PostOrderAllCoversTrees(nodes[1..]);
    }
  }

  /** Counting the calls: a fold that adds one per call returns the size of
      the tree, so `f` is applied exactly once per node. */
  lemma FoldCallsOncePerNode(node: Node, start: int)
    ensures Fold((k: int, n: Node) => k + 1, start, node) == start + Size(node)
  {
    var count := (k: int, n: Node) => k + 1;
    FoldIsPostOrderFold(count, start, node);
    PostOrderCoversTree(node);
    FoldLeftCounts(start, PostOrder(node));
  }

  lemma {:induction false} FoldLeftCounts(start: int, nodes: seq<Node>)
    ensures FoldLeft((k: int, n: Node) => k + 1, start, nodes) == start + |nodes|
    decreases nodes
  {
    if nodes != [] {
      FoldLeftCounts(start + 1, nodes[1..]);
    }
  }

  /** On a leaf the fold is one application of `f`. */
  lemma FoldLeaf<A>(f: (A, Node) -> A, acc: A, node: Node)
    requires node.children == []
    ensures Fold(f, acc, node) == f(acc, node)
  {
  }
}
