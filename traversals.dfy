/**
  Facts about the reference traversals and about the arena links of a
  structured tree.
 */
module Traversals {
  import opened Shapes

  /** The three orders list the same nodes, each as many times as the tree holds it. */
  lemma {:induction false} OrdersArePermutations(t: Tree)
    ensures |PreOrder(t)| == Size(t) && |InOrder(t)| == Size(t) && |PostOrder(t)| == Size(t)
    ensures multiset(PreOrder(t)) == multiset(InOrder(t)) == multiset(PostOrder(t))
    ensures forall j :: j in InOrder(t) <==> j in Idx(t)
  {
    OrderLengths(t);
    OrderMultisets(t);
    InOrderMembers(t);
  }

  lemma {:induction false} OrderLengths(t: Tree)
    ensures |PreOrder(t)| == Size(t) && |InOrder(t)| == Size(t) && |PostOrder(t)| == Size(t)
  {
    match t
    case Nil =>
    case Br(l, i, r) =>
      OrderLengths(l);
      OrderLengths(r);
  }

  lemma {:induction false} OrderMultisets(t: Tree)
    ensures multiset(PreOrder(t)) == multiset(InOrder(t)) == multiset(PostOrder(t))
  {
    match t
    case Nil =>
    case Br(l, i, r) =>
      OrderMultisets(l);
      OrderMultisets(r);
      assert multiset(InOrder(t)) == multiset(InOrder(l)) + multiset{i} + multiset(InOrder(r));
      assert multiset(PreOrder(t)) == multiset{i} + multiset(PreOrder(l)) + multiset(PreOrder(r));
      assert multiset(PostOrder(t)) == multiset(PostOrder(l)) + multiset(PostOrder(r)) + multiset{i};
  }

  lemma {:induction false} InOrderMembers(t: Tree)
    ensures forall j :: j in InOrder(t) <==> j in Idx(t)
  {
    match t
    case Nil =>
    case Br(l, i, r) =>
      InOrderMembers(l);
      InOrderMembers(r);
  }

  /** In a tree without repeated nodes, every traversal visits each node exactly once. */
  lemma EachNodeExactlyOnce(t: Tree)
    requires Unique(t)
    ensures multiset(PreOrder(t)) == multiset(Idx(t))
    ensures multiset(InOrder(t)) == multiset(Idx(t))
    ensures multiset(PostOrder(t)) == multiset(Idx(t))
  {
    InOrderOnce(t);
    OrdersArePermutations(t);
  }

  lemma {:induction false} InOrderOnce(t: Tree)
    requires Unique(t)
    ensures multiset(InOrder(t)) == multiset(Idx(t))
  {
    match t
    case Nil =>
    case Br(l, i, r) =>
      InOrderOnce(l);
      InOrderOnce(r);
      IdxMultiset(t);
      assert InOrder(t) == InOrder(l) + [i] + InOrder(r);
  }

  lemma IdxMultiset(t: Tree)
    requires Unique(t) && t.Br?
    ensures multiset(Idx(t)) == multiset(Idx(t.left)) + multiset{t.idx} + multiset(Idx(t.right))
  {
    var l, i, r := t.left, t.idx, t.right;
    assert Idx(t) == Idx(l) + {i} + Idx(r);
    DisjointUnionMultiset(Idx(l), {i});
    DisjointUnionMultiset(Idx(l) + {i}, Idx(r));
  }

  lemma DisjointUnionMultiset(a: set<nat>, b: set<nat>)
    requires a !! b
    ensures multiset(a + b) == multiset(a) + multiset(b)
  {
    forall x ensures multiset(a + b)[x] == (multiset(a) + multiset(b))[x] {
      assert x in a ==> x !in b;
    }
  }

  lemma ValuesConcat(nodes: seq<Node>, a: seq<nat>, b: seq<nat>)
    ensures Values(nodes, a + b) == Values(nodes, a) + Values(nodes, b)
  {
  }

  /** In-order visits the values of a search tree in non-decreasing order. */
  lemma {:induction false} InOrderSorted(nodes: seq<Node>, t: Tree)
    requires Ordered(nodes, t)
    ensures NonDecreasing(Values(nodes, InOrder(t)))
  {
    match t
    case Nil =>
    case Br(l, i, r) =>
      InOrderSorted(nodes, l);
      InOrderSorted(nodes, r);
      var a, b := InOrder(l), InOrder(r);
      var v := nodes[i].value;
      assert Values(nodes, InOrder(t)) == Values(nodes, a) + [v] + Values(nodes, b) by {
        ValuesConcat(nodes, a, [i]);
        ValuesConcat(nodes, a + [i], b);
      }
      LeftValuesBelow(nodes, l, v);
      RightValuesAbove(nodes, r, v);
      SortedJoin(Values(nodes, a), v, Values(nodes, b));
  }

  lemma LeftValuesBelow(nodes: seq<Node>, l: Tree, v: int)
    requires forall j :: j in Idx(l) ==> j < |nodes| && nodes[j].value < v
    ensures forall k :: 0 <= k < |Values(nodes, InOrder(l))| ==> Values(nodes, InOrder(l))[k] < v
  {
    OrdersArePermutations(l);
    var a := InOrder(l);
    forall k | 0 <= k < |a| ensures Values(nodes, a)[k] < v {
      assert a[k] in a;
    }
  }

  lemma RightValuesAbove(nodes: seq<Node>, r: Tree, v: int)
    requires forall j :: j in Idx(r) ==> j < |nodes| && v <= nodes[j].value
    ensures forall k :: 0 <= k < |Values(nodes, InOrder(r))| ==> v <= Values(nodes, InOrder(r))[k]
  {
    OrdersArePermutations(r);
    var b := InOrder(r);
    forall k | 0 <= k < |b| ensures v <= Values(nodes, b)[k] {
      assert b[k] in b;
    }
  }

  lemma SortedJoin(a: seq<int>, v: int, b: seq<int>)
    requires NonDecreasing(a) && NonDecreasing(b)
    requires forall k :: 0 <= k < |a| ==> a[k] < v
    requires forall k :: 0 <= k < |b| ==> v <= b[k]
    ensures NonDecreasing(a + [v] + b)
  {
    var s := a + [v] + b;
    forall x, y | 0 <= x < y < |s| ensures s[x] <= s[y] {
      if y < |a| {
        assert s[x] == a[x] && s[y] == a[y];
      } else if x > |a| {
        assert s[x] == b[x - |a| - 1] && s[y] == b[y - |a| - 1];
      } else if x < |a| && y > |a| {
        assert s[x] == a[x] && s[y] == b[y - |a| - 1];
      }
    }
  }

  lemma {:induction false} ShapedInArena(nodes: seq<Node>, t: Tree)
    requires Shaped(nodes, t)
    ensures forall j :: j in Idx(t) ==> j < |nodes|
  {
    match t
    case Nil =>
    case Br(l, _, r) =>
      ShapedInArena(nodes, l);
      ShapedInArena(nodes, r);
  }

  /** The in-order of an arena-shaped tree lists arena indices only. */
  lemma InOrderInArena(nodes: seq<Node>, t: Tree)
    requires Shaped(nodes, t)
    ensures forall j :: j in InOrder(t) ==> j < |nodes|
  {
    ShapedInArena(nodes, t);
    OrdersArePermutations(t);
  }

  lemma {:induction false} LinksStayInside(nodes: seq<Node>, t: Tree, par: Option<nat>)
    requires Shaped(nodes, t) && Parented(nodes, t, par)
    ensures forall j :: j in Idx(t) ==>
      && j < |nodes|
      && (nodes[j].left.Some? ==> nodes[j].left.value in Idx(t))
      && (nodes[j].right.Some? ==> nodes[j].right.value in Idx(t))
      && (nodes[j].parent.Some? ==> nodes[j].parent.value in Idx(t) || (j == t.idx && nodes[j].parent == par))
  {
    match t
    case Nil =>
    case Br(l, i, r) =>
      LinksStayInside(nodes, l, Some(i));
      LinksStayInside(nodes, r, Some(i));
  }

  /** In a structured tree every link stays inside the tree. */
  lemma StructuredIsClosed(nodes: seq<Node>, root: Option<nat>, t: Tree)
    requires Structured(nodes, root, t)
    ensures Closed(nodes, t)
  {
    LinksStayInside(nodes, t, None);
  }

  lemma {:induction false} SubtreeShaped(nodes: seq<Node>, t: Tree, j: nat)
    requires Shaped(nodes, t) && Unique(t)
    ensures Shaped(nodes, Subtree(t, j)) && Unique(Subtree(t, j))
  {
    match t
    case Nil =>
    case Br(l, i, r) =>
      SubtreeShaped(nodes, l, j);
      SubtreeShaped(nodes, r, j);
  }

  lemma {:induction false} LeftmostHasNoLeft(nodes: seq<Node>, t: Tree)
    requires Shaped(nodes, t) && t.Br?
    ensures Leftmost(t) < |nodes| && nodes[Leftmost(t)].left == None
  {
    if t.left.Br? {
      LeftmostHasNoLeft(nodes, t.left);
    }
  }

  /** Below the top, a node's Parent hangs that node as its Left or Right child. */
  lemma {:induction false} ParentHoldsChild(nodes: seq<Node>, t: Tree, par: Option<nat>, c: nat)
    requires Shaped(nodes, t) && Parented(nodes, t, par) && Unique(t)
    requires c in Idx(t) && c != t.idx
    ensures c < |nodes| && nodes[c].parent.Some? && nodes[c].parent.value < |nodes|
    ensures nodes[nodes[c].parent.value].left == Some(c) || nodes[nodes[c].parent.value].right == Some(c)
  {
    match t
    case Br(l, i, r) =>
      if c in Idx(l) {
        if c != l.idx {
          ParentHoldsChild(nodes, l, Some(i), c);
        }
      } else {
        if c != r.idx {
          ParentHoldsChild(nodes, r, Some(i), c);
        }
      }
  }

  /** Two trees the arena's links both follow from the same top are the same tree. */
  lemma {:induction false} ShapedDetermined(nodes: seq<Node>, a: Tree, b: Tree)
    requires Shaped(nodes, a) && Shaped(nodes, b) && RootOf(a) == RootOf(b)
    ensures a == b
  {
    if a.Br? {
      ShapedDetermined(nodes, a.left, b.left);
      ShapedDetermined(nodes, a.right, b.right);
    }
  }

  /** The in-order of a subtree is a contiguous piece of the whole in-order. */
  lemma {:induction false} InOrderSegment(t: Tree, j: nat) returns (before: seq<nat>, after: seq<nat>)
    requires j in Idx(t)
    ensures InOrder(t) == before + InOrder(Subtree(t, j)) + after
  {
    match t
    case Br(l, i, r) =>
      if i == j {
        before, after := [], [];
      } else if j in Idx(l) {
        var b, a := InOrderSegment(l, j);
        before, after := b, a + [i] + InOrder(r);
      } else {
        var b, a := InOrderSegment(r, j);
        before, after := InOrder(l) + [i] + b, a;
      }
  }

  /** In-order starts at the leftmost node. */
  lemma {:induction false} InOrderStartsLeftmost(t: Tree) returns (rest: seq<nat>)
    requires t.Br?
    ensures InOrder(t) == [Leftmost(t)] + rest
  {
    if t.left.Nil? {
      rest := InOrder(t.right);
    } else {
      var r := InOrderStartsLeftmost(t.left);
      rest := r + [t.idx] + InOrder(t.right);
    }
  }
}
