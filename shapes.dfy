/**
  The data model of the binary search tree: a node arena whose links are
  indices into the arena, and a ghost shape that names, for every branch of
  the abstract tree, the arena index of its node.  The three reference
  traversals are defined over the shape.
 */
module Shapes {

  datatype Option<T> = None | Some(value: T)

  /** One node: its value and its Left, Right and Parent links as arena indices. */
  datatype Node = Node(value: int, left: Option<nat>, right: Option<nat>, parent: Option<nat>)

  /** The abstract tree; `idx` is the arena index of the branch's node. */
  datatype Tree = Nil | Br(left: Tree, idx: nat, right: Tree)

  function RootOf(t: Tree): Option<nat>
  {
    if t.Nil? then None else Some(t.idx)
  }

  /** The arena indices that occur in a tree. */
  function Idx(t: Tree): set<nat>
  {
    match t
    case Nil => {}
    case Br(l, i, r) => Idx(l) + {i} + Idx(r)
  }

  function Size(t: Tree): nat
  {
    match t
    case Nil => 0
    case Br(l, _, r) => Size(l) + 1 + Size(r)
  }

  /** The arena's Left and Right links follow the shape. */
  ghost predicate Shaped(nodes: seq<Node>, t: Tree)
  {
    match t
    case Nil => true
    case Br(l, i, r) =>
      && i < |nodes|
      && nodes[i].left == RootOf(l)
      && nodes[i].right == RootOf(r)
      && Shaped(nodes, l)
      && Shaped(nodes, r)
  }

  /** Every node's Parent link names the node it hangs from (`par` for the top). */
  ghost predicate Parented(nodes: seq<Node>, t: Tree, par: Option<nat>)
  {
    match t
    case Nil => true
    case Br(l, i, r) =>
      && i < |nodes|
      && nodes[i].parent == par
      && Parented(nodes, l, Some(i))
      && Parented(nodes, r, Some(i))
  }

  /** No arena index occurs twice in the tree. */
  ghost predicate Unique(t: Tree)
  {
    match t
    case Nil => true
    case Br(l, i, r) =>
      && i !in Idx(l) && i !in Idx(r) && Idx(l) !! Idx(r)
      && Unique(l) && Unique(r)
  }

  /** The search-tree order: left subtree strictly less, right subtree greater or equal. */
  ghost predicate Ordered(nodes: seq<Node>, t: Tree)
  {
    match t
    case Nil => true
    case Br(l, i, r) =>
      && i < |nodes|
      && (forall j :: j in Idx(l) ==> j < |nodes| && nodes[j].value < nodes[i].value)
      && (forall j :: j in Idx(r) ==> j < |nodes| && nodes[i].value <= nodes[j].value)
      && Ordered(nodes, l)
      && Ordered(nodes, r)
  }

  /** A tree of nodes rooted at `root`, with consistent child and parent links. */
  ghost predicate Structured(nodes: seq<Node>, root: Option<nat>, t: Tree)
  {
    RootOf(t) == root && Shaped(nodes, t) && Parented(nodes, t, None) && Unique(t)
  }

  /** A whole binary search tree: structured, ordered, and every arena node is in it. */
  ghost predicate WellFormed(nodes: seq<Node>, root: Option<nat>, t: Tree)
  {
    && Structured(nodes, root, t)
    && Ordered(nodes, t)
    && (forall j: nat :: j in Idx(t) <==> j < |nodes|)
  }

  /** Every link of a node of the tree leads to a node of the tree. */
  ghost predicate Closed(nodes: seq<Node>, t: Tree)
  {
    forall j :: j in Idx(t) ==>
      && j < |nodes|
      && (nodes[j].left.Some? ==> nodes[j].left.value in Idx(t))
      && (nodes[j].right.Some? ==> nodes[j].right.value in Idx(t))
      && (nodes[j].parent.Some? ==> nodes[j].parent.value in Idx(t))
  }

  function PreOrder(t: Tree): seq<nat>
  {
    match t
    case Nil => []
    case Br(l, i, r) => [i] + PreOrder(l) + PreOrder(r)
  }

  function InOrder(t: Tree): seq<nat>
  {
    match t
    case Nil => []
    case Br(l, i, r) => InOrder(l) + [i] + InOrder(r)
  }

  function PostOrder(t: Tree): seq<nat>
  {
    match t
    case Nil => []
    case Br(l, i, r) => PostOrder(l) + PostOrder(r) + [i]
  }

  /**
    The values at a sequence of arena indices (an index outside the arena,
    which never occurs in a structured tree, reads as 0).
   */
  function Values(nodes: seq<Node>, s: seq<nat>): seq<int>
  {
    seq(|s|, k requires 0 <= k < |s| => if s[k] < |nodes| then nodes[s[k]].value else 0)
  }

  /** The branch of `t` whose node is `j` (Nil when `j` is not in `t`). */
  function Subtree(t: Tree, j: nat): (s: Tree)
    ensures Idx(s) <= Idx(t)
    ensures j in Idx(t) <==> s.Br?
    ensures s.Br? ==> s.idx == j
  {
    match t
    case Nil => Nil
    case Br(l, i, r) =>
      if i == j then t else if j in Idx(l) then Subtree(l, j) else Subtree(r, j)
  }

  /** The node at the end of the chain of Left links from the top of `t`. */
  function Leftmost(t: Tree): (j: nat)
    requires t.Br?
    ensures j in Idx(t)
  {
    if t.left.Nil? then t.idx else Leftmost(t.left)
  }

  ghost predicate NonDecreasing(s: seq<int>)
  {
    forall a, b :: 0 <= a < b < |s| ==> s[a] <= s[b]
  }
}
