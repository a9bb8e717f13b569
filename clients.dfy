/**
  What a caller of the tree observes: enumerating the traversal objects,
  the three in-order views, and the demonstration tree built from
  5, 3, 7, 2, 4, 6, 8.
 */
module Clients {
  import opened Shapes
  import opened Traversals
  import opened Insertion
  import opened PostOrderIterators
  import opened Enumerators
  import opened BinaryTrees

  /**
    A traversal object yields its whole traversal the first time it is
    enumerated and nothing the second time, since it hands out the same,
    now exhausted, enumerator.
   */
  method PreOrderReplaysOnce(tree: BinaryTree) returns (first: seq<int>, second: seq<int>)
    requires tree.Valid()
    ensures first == Values(tree.nodes, PreOrder(tree.shape)) && second == []
  {
    var w := tree.PreOrderTraversal();
    first, second := EnumerateTwice(w);
  }

  method InOrderReplaysOnce(tree: BinaryTree) returns (first: seq<int>, second: seq<int>)
    requires tree.Valid()
    ensures first == Values(tree.nodes, InOrder(tree.shape)) && second == []
  {
    var w := tree.InOrderTraversal();
    first, second := EnumerateTwice(w);
  }

  method PostOrderReplaysOnce(tree: BinaryTree) returns (first: seq<int>, second: seq<int>)
    requires tree.Valid()
    ensures first == Values(tree.nodes, PostOrder(tree.shape)) && second == []
  {
    var w := tree.PostOrderTraversal();
    first, second := EnumerateTwice(w);
  }

  method EnumerateTwice(w: IterableWrapper) returns (first: seq<int>, second: seq<int>)
    requires w.enumerator.Valid()
    modifies w.enumerator.Obj()
    ensures first == Values(w.enumerator.Nodes(), old(w.enumerator.Remaining())) && second == []
  {
    first := Enumerate(w);
    second := Enumerate(w);
  }

  /** A `foreach` over an enumerable: ask it for its enumerator and run that to the end. */
  method Enumerate(w: IterableWrapper) returns (xs: seq<int>)
    requires w.enumerator.Valid()
    modifies w.enumerator.Obj()
    ensures w.enumerator.Valid() && w.enumerator.Remaining() == []
    ensures xs == Values(w.enumerator.Nodes(), old(w.enumerator.Remaining()))
  {
    var e := w.GetEnumerator();
    xs := ForEach(e);
  }

  /**
    The list built by InOrderLambda, the default enumerator and the
    in-order traversal object give the same values, in non-decreasing order.
   */
  method InOrderViewsAgree(tree: BinaryTree) returns (lambda: seq<int>, byDefault: seq<int>, byTraversal: seq<int>)
    requires tree.Valid()
    ensures lambda == byDefault == byTraversal == Values(tree.nodes, InOrder(tree.shape))
    ensures NonDecreasing(lambda)
  {
    lambda := tree.InOrderLambda();
    var it := tree.GetEnumerator();
    byDefault := ForEach(InEnum(it));
    var w := tree.InOrderTraversal();
    byTraversal := Enumerate(w);
  }

  /** A full traversal of a well-formed tree visits every node of the arena exactly once. */
  lemma TraversalsCoverArena(tree: seq<Node>, root: Option<nat>, t: Tree)
    requires WellFormed(tree, root, t)
    ensures multiset(PreOrder(t)) == multiset(InOrder(t)) == multiset(PostOrder(t)) == multiset(Idx(t))
    ensures forall j: nat :: j in Idx(t) <==> j < |tree|
  {
    EachNodeExactlyOnce(t);
  }

  /** The arena after inserting 5, 3, 7, 2, 4, 6, 8 into an empty tree. */
  const DemoNodes: seq<Node> := [
    Node(5, Some(1), Some(2), None),
    Node(3, Some(3), Some(4), Some(0)),
    Node(7, Some(5), Some(6), Some(0)),
    Node(2, None, None, Some(1)),
    Node(4, None, None, Some(1)),
    Node(6, None, None, Some(2)),
    Node(8, None, None, Some(2))
  ]

  const DemoShape: Tree :=
    Br(Br(Br(Nil, 3, Nil), 1, Br(Nil, 4, Nil)), 0, Br(Br(Nil, 5, Nil), 2, Br(Nil, 6, Nil)))

  /** The arena after the first `k` insertions, 1 <= k <= 7. */
  function DemoArena(k: nat): seq<Node>
    requires 1 <= k <= 7
  {
    match k
    case 1 => [Node(5, None, None, None)]
    case 2 => [Node(5, Some(1), None, None), Node(3, None, None, Some(0))]
    case 3 => [Node(5, Some(1), Some(2), None), Node(3, None, None, Some(0)), Node(7, None, None, Some(0))]
    case 4 => [Node(5, Some(1), Some(2), None), Node(3, Some(3), None, Some(0)), Node(7, None, None, Some(0)),
               Node(2, None, None, Some(1))]
    case 5 => [Node(5, Some(1), Some(2), None), Node(3, Some(3), Some(4), Some(0)), Node(7, None, None, Some(0)),
               Node(2, None, None, Some(1)), Node(4, None, None, Some(1))]
    case 6 => [Node(5, Some(1), Some(2), None), Node(3, Some(3), Some(4), Some(0)), Node(7, Some(5), None, Some(0)),
               Node(2, None, None, Some(1)), Node(4, None, None, Some(1)), Node(6, None, None, Some(2))]
    case _ => DemoNodes
  }

  /** The shape after the first `k` insertions, 1 <= k <= 7. */
  function DemoTree(k: nat): Tree
    requires 1 <= k <= 7
  {
    match k
    case 1 => Br(Nil, 0, Nil)
    case 2 => Br(Br(Nil, 1, Nil), 0, Nil)
    case 3 => Br(Br(Nil, 1, Nil), 0, Br(Nil, 2, Nil))
    case 4 => Br(Br(Br(Nil, 3, Nil), 1, Nil), 0, Br(Nil, 2, Nil))
    case 5 => Br(Br(Br(Nil, 3, Nil), 1, Br(Nil, 4, Nil)), 0, Br(Nil, 2, Nil))
    case 6 => Br(Br(Br(Nil, 3, Nil), 1, Br(Nil, 4, Nil)), 0, Br(Br(Nil, 5, Nil), 2, Nil))
    case _ => DemoShape
  }

  /** The values inserted, in order. */
  const DemoInput: seq<int> := [5, 3, 7, 2, 4, 6, 8]

  /** Insertion `k + 1` turns the tree after `k` insertions into the tree after `k + 1`. */
  lemma DemoStep(k: nat)
    requires 1 <= k < 7
    ensures Shaped(DemoArena(k), DemoTree(k)) && |DemoArena(k)| == k
    ensures Grafted(DemoArena(k), DemoTree(k), DemoInput[k]) == DemoArena(k + 1)
    ensures InsertShape(DemoArena(k), DemoTree(k), DemoInput[k], k) == DemoTree(k + 1)
  {
    match k
    case 1 => assert Shaped(DemoArena(1), DemoTree(1));
    case 2 => assert Shaped(DemoArena(2), DemoTree(2));
    case 3 => assert Shaped(DemoArena(3), DemoTree(3));
    case 4 => assert Shaped(DemoArena(4), DemoTree(4));
    case 5 => assert Shaped(DemoArena(5), DemoTree(5));
    case 6 => assert Shaped(DemoArena(6), DemoTree(6));
  }

  /** Inserting 5, 3, 7, 2, 4, 6, 8 builds the demonstration tree. */
  method BuildDemo() returns (tree: BinaryTree)
    ensures tree.Valid() && tree.nodes == DemoNodes && tree.root == Some(0) && tree.shape == DemoShape
  {
    tree := new BinaryTree();
    tree.Add(5);
    assert tree.nodes == DemoArena(1) && tree.shape == DemoTree(1);
    DemoAdd(tree, 1);
    DemoAdd(tree, 2);
    DemoAdd(tree, 3);
    DemoAdd(tree, 4);
    DemoAdd(tree, 5);
    DemoAdd(tree, 6);
  }

  /** Inserts the next demonstration value into the tree built from the first `k`. */
  method DemoAdd(tree: BinaryTree, k: nat)
    requires 1 <= k < 7
    requires tree.Valid() && tree.nodes == DemoArena(k) && tree.root == Some(0) && tree.shape == DemoTree(k)
    modifies tree
    ensures tree.Valid() && tree.nodes == DemoArena(k + 1) && tree.root == Some(0) && tree.shape == DemoTree(k + 1)
  {
    DemoStep(k);
    tree.Add(DemoInput[k]);
  }

  /** The three traversals of the demonstration tree, as values. */
  lemma DemoTraversals()
    ensures Values(DemoNodes, InOrder(DemoShape)) == [2, 3, 4, 5, 6, 7, 8]
    ensures Values(DemoNodes, PreOrder(DemoShape)) == [5, 3, 2, 4, 7, 6, 8]
    ensures Values(DemoNodes, PostOrder(DemoShape)) == [2, 4, 3, 6, 8, 7, 5]
  {
    DemoOrders();
  }

  /** The three traversals of the demonstration tree, as arena indices. */
  lemma DemoOrders()
    ensures InOrder(DemoShape) == [3, 1, 4, 0, 5, 2, 6]
    ensures PreOrder(DemoShape) == [0, 1, 3, 4, 2, 5, 6]
    ensures PostOrder(DemoShape) == [3, 4, 1, 5, 6, 2, 0]
  {
    var a, b := Br(Br(Nil, 3, Nil), 1, Br(Nil, 4, Nil)), Br(Br(Nil, 5, Nil), 2, Br(Nil, 6, Nil));
    assert InOrder(a) == [3, 1, 4] && InOrder(b) == [5, 2, 6];
    assert PreOrder(a) == [1, 3, 4] && PreOrder(b) == [2, 5, 6];
    assert PostOrder(a) == [3, 4, 1] && PostOrder(b) == [5, 6, 2];
  }

  /**
    On the demonstration tree Previous moves from 5 to 6 and from 2 to 3,
    although 7 comes just before 5 in post-order and 2 comes first.
   */
  lemma DemoPrevious()
    ensures Closed(DemoNodes, DemoShape)
    ensures PreviousTarget(DemoNodes, DemoShape, 0) == Some(5) && DemoNodes[5].value == 6
    ensures PreviousTarget(DemoNodes, DemoShape, 3) == Some(1) && DemoNodes[1].value == 3
    ensures PostOrder(DemoShape)[5] == 2 && PostOrder(DemoShape)[6] == 0 && PostOrder(DemoShape)[0] == 3
  {
    DemoOrders();
    DemoClosed();
    assert 0 in Idx(DemoShape) && 3 in Idx(DemoShape);
    assert Subtree(DemoShape, 5) == Br(Nil, 5, Nil);
  }

  /** Every link of the demonstration arena stays among the tree's nodes. */
  lemma DemoClosed()
    ensures Idx(DemoShape) == {0, 1, 2, 3, 4, 5, 6}
    ensures Closed(DemoNodes, DemoShape)
  {
    assert Idx(DemoShape) == {0, 1, 2, 3, 4, 5, 6};
    forall j | j in Idx(DemoShape)
      ensures && j < |DemoNodes|
              && (DemoNodes[j].left.Some? ==> DemoNodes[j].left.value in Idx(DemoShape))
              && (DemoNodes[j].right.Some? ==> DemoNodes[j].right.value in Idx(DemoShape))
              && (DemoNodes[j].parent.Some? ==> DemoNodes[j].parent.value in Idx(DemoShape))
    {
      assert j <= 6;
    }
  }

  /** The demonstration's four traversals written to the console. */
  method DemoOutput() returns (inOrder: seq<int>, pre: seq<int>, post: seq<int>, lambda: seq<int>)
    ensures inOrder == lambda == [2, 3, 4, 5, 6, 7, 8]
    ensures pre == [5, 3, 2, 4, 7, 6, 8]
    ensures post == [2, 4, 3, 6, 8, 7, 5]
  {
    var tree := BuildDemo();
    DemoTraversals();
    var byTraversal, preAgain, postAgain;
    lambda, inOrder, byTraversal := InOrderViewsAgree(tree);
    pre, preAgain := PreOrderReplaysOnce(tree);
    post, postAgain := PostOrderReplaysOnce(tree);
  }

  /**
    The demonstration's last part: a full post-order run, then the walk
    backwards, which stops at once because exhaustion leaves no current node.
   */
  method DemoBackwards() returns (postRun: seq<int>, backwards: bool)
    ensures postRun == [2, 4, 3, 6, 8, 7, 5]
    ensures !backwards
  {
    var tree := BuildDemo();
    DemoTraversals();
    var postIterator := new PostOrderIterator(tree.nodes, tree.root, tree.shape);
    postRun := ForEach(PostEnum(postIterator));
    backwards := postIterator.Previous();
  }
}
