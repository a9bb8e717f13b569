/**
  The binary search tree itself: insertion, the recursive in-order list
  builder, and the factories that hand out the three iterators.
 */
module BinaryTrees {
  import opened Shapes
  import opened Traversals
  import opened Insertion
  import opened PreOrderIterators
  import opened InOrderIterators
  import opened PostOrderIterators
  import opened Enumerators

  /** A growable list of values, appended to in place. */
  class ResultList {
    var items: seq<int>

    constructor ()
      ensures items == []
    {
      items := [];
    }

    method Add(x: int)
      modifies this
      ensures items == old(items) + [x]
    {
      items := items + [x];
    }
  }

  class BinaryTree {
    /** The node arena; a node's Left, Right and Parent are indices into it. */
    var nodes: seq<Node>
    var root: Option<nat>
    ghost var shape: Tree

    ghost predicate Valid()
      reads this
    {
      WellFormed(nodes, root, shape)
    }

    constructor ()
      ensures Valid() && nodes == [] && root == None && shape == Nil
    {
      nodes, root, shape := [], None, Nil;
    }

    /**
      Inserts `v`: as the root of an empty tree, otherwise in the first
      empty child slot on the search path.
     */
    method Add(v: int)
      requires Valid()
      modifies this
      ensures Valid()
      ensures old(root).None? ==> nodes == [Node(v, None, None, None)] && root == Some(0)
      ensures old(root).Some? ==> && root == old(root)
                                  && nodes == Grafted(old(nodes), old(shape), v)
                                  && shape == InsertShape(old(nodes), old(shape), v, |old(nodes)|)
                                  && exists p :: p in Idx(old(shape)) && FilledSlot(old(nodes), nodes, p, v)
      ensures Size(shape) == Size(old(shape)) + 1 && |nodes| == |old(nodes)| + 1
      ensures multiset(Values(nodes, InOrder(shape))) == multiset(Values(old(nodes), InOrder(old(shape)))) + multiset{v}
    {
      if root.None? {
        nodes, root, shape := [Node(v, None, None, None)], Some(0), Br(Nil, 0, Nil);
        assert Idx(shape) == {0};
        assert Structured(nodes, root, shape);
        assert Ordered(nodes, shape);
        assert forall j: nat :: j in Idx(shape) <==> j < |nodes|;
        return;
      }
      ghost var before, t := nodes, shape;
      AddRecursive(root.value, v, t);
      shape := InsertShape(before, t, v, |before|);
      AddKeepsWellFormed(before, t, v);
      InsertAddsValue(before, nodes, t, v);
      GraftFillsOneSlot(before, t, v);
    }

    /** Walks down from `node` (the top of `t`) and hangs a new node holding `v` in the first empty slot. */
    method AddRecursive(node: nat, v: int, ghost t: Tree)
      requires t.Br? && t.idx == node && Shaped(nodes, t)
      modifies this`nodes
      ensures nodes == Grafted(old(nodes), t, v)
      decreases t
    {
      var n := |nodes|;
      if v < nodes[node].value {
        if nodes[node].left.None? {
          nodes := nodes[node := nodes[node].(left := Some(n))] + [Node(v, None, None, Some(node))];
        } else {
          AddRecursive(nodes[node].left.value, v, t.left);
        }
      } else {
        if nodes[node].right.None? {
          nodes := nodes[node := nodes[node].(right := Some(n))] + [Node(v, None, None, Some(node))];
        } else {
          AddRecursive(nodes[node].right.value, v, t.right);
        }
      }
    }

    /** The values of the tree in in-order, built by the recursive list builder. */
    method InOrderLambda() returns (result: seq<int>)
      requires Valid()
      ensures result == Values(nodes, InOrder(shape))
      ensures NonDecreasing(result)
    {
      var list := new ResultList();
      InOrderLambdaInto(root, shape, list);
      result := list.items;
      InOrderSorted(nodes, shape);
    }

    /** Appends the in-order values of the subtree `t` at `node` to `result`. */
    method InOrderLambdaInto(node: Option<nat>, ghost t: Tree, result: ResultList)
      requires Shaped(nodes, t) && RootOf(t) == node
      modifies result
      ensures result.items == old(result.items) + Values(nodes, InOrder(t))
      decreases t
    {
      if node.None? {
        return;
      }
      var n := node.value;
      InOrderLambdaInto(nodes[n].left, t.left, result);
      result.Add(nodes[n].value);
      InOrderLambdaInto(nodes[n].right, t.right, result);
      ValuesConcat(nodes, InOrder(t.left), [n]);
      ValuesConcat(nodes, InOrder(t.left) + [n], InOrder(t.right));
    }

    /** The default enumerator: a fresh in-order iterator. */
    method GetEnumerator() returns (it: InOrderIterator)
      requires Valid()
      ensures fresh(it) && it.nodes == nodes && it.root == root && it.shape == shape
      ensures it.Valid() && it.Initial() && it.Remaining() == InOrder(shape)
    {
      it := new InOrderIterator(nodes, root, shape);
    }

    method PreOrderTraversal() returns (w: IterableWrapper)
      requires Valid()
      ensures fresh(w) && w.enumerator.PreEnum? && fresh(w.enumerator.pre)
      ensures w.enumerator.Nodes() == nodes && w.enumerator.pre.shape == shape
      ensures w.enumerator.Valid() && w.enumerator.Initial() && w.enumerator.Remaining() == PreOrder(shape)
    {
      var it := new PreOrderIterator(nodes, root, shape);
      w := new IterableWrapper(PreEnum(it));
    }

    method PostOrderTraversal() returns (w: IterableWrapper)
      requires Valid()
      ensures fresh(w) && w.enumerator.PostEnum? && fresh(w.enumerator.post)
      ensures w.enumerator.Nodes() == nodes && w.enumerator.post.shape == shape
      ensures w.enumerator.Valid() && w.enumerator.Initial() && w.enumerator.Remaining() == PostOrder(shape)
    {
      var it := new PostOrderIterator(nodes, root, shape);
      w := new IterableWrapper(PostEnum(it));
    }

    method InOrderTraversal() returns (w: IterableWrapper)
      requires Valid()
      ensures fresh(w) && w.enumerator.InEnum? && fresh(w.enumerator.inOrder)
      ensures w.enumerator.Nodes() == nodes && w.enumerator.inOrder.shape == shape
      ensures w.enumerator.Valid() && w.enumerator.Initial() && w.enumerator.Remaining() == InOrder(shape)
    {
      var it := new InOrderIterator(nodes, root, shape);
      w := new IterableWrapper(InEnum(it));
    }
  }
}
