/**
  What `Add` does to the node arena and to the abstract tree, and why it
  keeps the tree a well-formed binary search tree.
 */
module Insertion {
  import opened Shapes
  import opened Traversals

  /**
    The shape after inserting value `v` as arena node `n`: strictly less goes
    left, anything else (equal values included) goes right.
   */
  ghost function InsertShape(nodes: seq<Node>, t: Tree, v: int, n: nat): (t': Tree)
    requires Shaped(nodes, t)
    ensures Idx(t') == Idx(t) + {n}
    ensures Size(t') == Size(t) + 1
    ensures t.Br? ==> RootOf(t') == RootOf(t)
  {
    match t
    case Nil => Br(Nil, n, Nil)
    case Br(l, i, r) =>
      if v < nodes[i].value then Br(InsertShape(nodes, l, v, n), i, r)
      else Br(l, i, InsertShape(nodes, r, v, n))
  }

  /**
    `after` is `before` with one previously empty child slot of node `p`
    (the side the comparison picks) pointing at a new last node holding `v`
    whose parent is `p`; nothing else differs.
   */
  ghost predicate FilledSlot(before: seq<Node>, after: seq<Node>, p: nat, v: int)
  {
    var n := |before|;
    && p < n && |after| == n + 1
    && after[n] == Node(v, None, None, Some(p))
    && (|| (v < before[p].value && before[p].left == None
            && after[..n] == before[p := before[p].(left := Some(n))])
        || (before[p].value <= v && before[p].right == None
            && after[..n] == before[p := before[p].(right := Some(n))]))
  }

  /** The arena after `AddRecursive` descends from the top of `t` and attaches `v`. */
  ghost function Grafted(nodes: seq<Node>, t: Tree, v: int): (g: seq<Node>)
    requires t.Br? && Shaped(nodes, t)
    ensures |g| == |nodes| + 1
    ensures forall j :: 0 <= j < |nodes| && j !in Idx(t) ==> g[j] == nodes[j]
    ensures forall j :: 0 <= j < |nodes| ==> g[j].value == nodes[j].value && g[j].parent == nodes[j].parent
    ensures g[|nodes|].value == v && g[|nodes|].left == None && g[|nodes|].right == None
    decreases t
  {
    var i, n := t.idx, |nodes|;
    if v < nodes[i].value then
      if t.left.Nil? then
        nodes[i := nodes[i].(left := Some(n))] + [Node(v, None, None, Some(i))]
      else
        Grafted(nodes, t.left, v)
    else
      if t.right.Nil? then
        nodes[i := nodes[i].(right := Some(n))] + [Node(v, None, None, Some(i))]
      else
        Grafted(nodes, t.right, v)
  }

  /** Add fills exactly one previously empty child slot of a node of the tree. */
  lemma {:induction false} GraftFillsOneSlot(nodes: seq<Node>, t: Tree, v: int)
    requires t.Br? && Shaped(nodes, t)
    ensures exists p :: p in Idx(t) && FilledSlot(nodes, Grafted(nodes, t, v), p, v)
    decreases t
  {
    var i, n := t.idx, |nodes|;
    var g := Grafted(nodes, t, v);
    if v < nodes[i].value {
      if t.left.Nil? {
        assert FilledSlot(nodes, g, i, v);
      } else {
        GraftFillsOneSlot(nodes, t.left, v);
      }
    } else {
      if t.right.Nil? {
        assert FilledSlot(nodes, g, i, v);
      } else {
        GraftFillsOneSlot(nodes, t.right, v);
      }
    }
  }

  /** Arenas that agree on the nodes of `t` agree on its links. */
  lemma {:induction false} LinksFrame(a: seq<Node>, b: seq<Node>, t: Tree, par: Option<nat>)
    requires forall j :: j in Idx(t) ==> j < |a| && j < |b| && a[j] == b[j]
    ensures Shaped(a, t) ==> Shaped(b, t)
    ensures Parented(a, t, par) ==> Parented(b, t, par)
  {
    match t
    case Nil =>
    case Br(l, i, r) =>
      assert Idx(t) == Idx(l) + {i} + Idx(r);
      LinksFrame(a, b, l, Some(i));
      LinksFrame(a, b, r, Some(i));
  }

  /** Arenas that agree on the values of the nodes of `t` agree on its order. */
  lemma {:induction false} OrderFrame(a: seq<Node>, b: seq<Node>, t: Tree)
    requires forall j :: j in Idx(t) ==> j < |a| && j < |b| && a[j].value == b[j].value
    ensures Ordered(a, t) ==> Ordered(b, t)
  {
    match t
    case Nil =>
    case Br(l, i, r) =>
      assert Idx(t) == Idx(l) + {i} + Idx(r);
      OrderFrame(a, b, l);
      OrderFrame(a, b, r);
  }

  lemma ValuesFrame(a: seq<Node>, b: seq<Node>, s: seq<nat>)
    requires forall j :: 0 <= j < |a| ==> j < |b| && a[j].value == b[j].value
    requires forall j :: j in s ==> j < |a|
    ensures Values(a, s) == Values(b, s)
  {
    forall k | 0 <= k < |s| ensures Values(a, s)[k] == Values(b, s)[k] {
      assert s[k] in s;
    }
  }

  /** Attaching a node keeps child links, parent links and uniqueness of the tree. */
  lemma {:induction false} GraftKeepsLinks(nodes: seq<Node>, t: Tree, v: int, par: Option<nat>)
    requires t.Br? && Shaped(nodes, t) && Parented(nodes, t, par) && Unique(t)
    ensures Shaped(Grafted(nodes, t, v), InsertShape(nodes, t, v, |nodes|))
    ensures Parented(Grafted(nodes, t, v), InsertShape(nodes, t, v, |nodes|), par)
    ensures Unique(InsertShape(nodes, t, v, |nodes|))
    decreases t
  {
    ShapedInArena(nodes, t);
    var g, n := Grafted(nodes, t, v), |nodes|;
    var l, i, r := t.left, t.idx, t.right;
    if v < nodes[i].value {
      var l' := InsertShape(nodes, l, v, n);
      if l.Br? {
        GraftKeepsLinks(nodes, l, v, Some(i));
        assert g[i] == nodes[i];
      }
      LinksFrame(nodes, g, r, Some(i));
    } else {
      var r' := InsertShape(nodes, r, v, n);
      if r.Br? {
        GraftKeepsLinks(nodes, r, v, Some(i));
        assert g[i] == nodes[i];
      }
      LinksFrame(nodes, g, l, Some(i));
    }
  }

  /**
    Attaching a node holding `v` where the comparison sends it keeps the
    search-tree order, in any arena `g` that keeps the old values and holds
    `v` at the new index.
   */
  lemma {:induction false} InsertKeepsOrder(nodes: seq<Node>, g: seq<Node>, t: Tree, v: int)
    requires Shaped(nodes, t) && Ordered(nodes, t)
    requires |g| == |nodes| + 1 && g[|nodes|].value == v
    requires forall j :: 0 <= j < |nodes| ==> g[j].value == nodes[j].value
    ensures Ordered(g, InsertShape(nodes, t, v, |nodes|))
    decreases t
  {
    match t
    case Nil =>
    case Br(l, i, r) =>
      if v < nodes[i].value {
        InsertKeepsOrder(nodes, g, l, v);
        OrderedOnLeft(nodes, g, l, i, r, v);
      } else {
        InsertKeepsOrder(nodes, g, r, v);
        OrderedOnRight(nodes, g, l, i, r, v);
      }
  }

  /** A value below the top's goes into the Left subtree, where every value is below the top's anyway. */
  lemma OrderedOnLeft(nodes: seq<Node>, g: seq<Node>, l: Tree, i: nat, r: Tree, v: int)
    requires Shaped(nodes, Br(l, i, r)) && Ordered(nodes, Br(l, i, r)) && v < nodes[i].value
    requires |g| == |nodes| + 1 && g[|nodes|].value == v
    requires forall j :: 0 <= j < |nodes| ==> g[j].value == nodes[j].value
    requires Ordered(g, InsertShape(nodes, l, v, |nodes|))
    ensures Ordered(g, InsertShape(nodes, Br(l, i, r), v, |nodes|))
  {
    var n := |nodes|;
    ShapedInArena(nodes, Br(l, i, r));
    var l' := InsertShape(nodes, l, v, n);
    OrderFrame(nodes, g, r);
    forall j | j in Idx(l') ensures j < |g| && g[j].value < g[i].value {
      if j != n {
        assert j in Idx(l);
      }
    }
    OrderedBranch(g, l', i, r);
  }

  /** A value at or above the top's goes into the Right subtree. */
  lemma OrderedOnRight(nodes: seq<Node>, g: seq<Node>, l: Tree, i: nat, r: Tree, v: int)
    requires Shaped(nodes, Br(l, i, r)) && Ordered(nodes, Br(l, i, r)) && nodes[i].value <= v
    requires |g| == |nodes| + 1 && g[|nodes|].value == v
    requires forall j :: 0 <= j < |nodes| ==> g[j].value == nodes[j].value
    requires Ordered(g, InsertShape(nodes, r, v, |nodes|))
    ensures Ordered(g, InsertShape(nodes, Br(l, i, r), v, |nodes|))
  {
    var n := |nodes|;
    ShapedInArena(nodes, Br(l, i, r));
    OrderFrame(nodes, g, l);
    OrderedBranch(g, l, i, InsertShape(nodes, r, v, n));
  }

  lemma OrderedBranch(nodes: seq<Node>, l: Tree, i: nat, r: Tree)
    requires i < |nodes| && Ordered(nodes, l) && Ordered(nodes, r)
    requires forall j :: j in Idx(l) ==> j < |nodes| && nodes[j].value < nodes[i].value
    requires forall j :: j in Idx(r) ==> j < |nodes| && nodes[i].value <= nodes[j].value
    ensures Ordered(nodes, Br(l, i, r))
  {
  }

  /** The in-order values gain exactly the inserted value (again in any arena `g` like the above). */
  lemma {:induction false} InsertAddsValue(nodes: seq<Node>, g: seq<Node>, t: Tree, v: int)
    requires Shaped(nodes, t)
    requires |g| == |nodes| + 1 && g[|nodes|].value == v
    requires forall j :: 0 <= j < |nodes| ==> g[j].value == nodes[j].value
    ensures multiset(Values(g, InOrder(InsertShape(nodes, t, v, |nodes|))))
         == multiset(Values(nodes, InOrder(t))) + multiset{v}
    decreases t
  {
    var n := |nodes|;
    match t
    case Nil =>
      assert InOrder(InsertShape(nodes, t, v, n)) == [n];
      assert Values(g, [n]) == [v];
      assert Values(nodes, InOrder(t)) == [];
    case Br(l, i, r) =>
      if v < nodes[i].value {
        InsertAddsValue(nodes, g, l, v);
        AddedOnLeft(nodes, g, l, i, r, v);
      } else {
        InsertAddsValue(nodes, g, r, v);
        AddedOnRight(nodes, g, l, i, r, v);
      }
  }

  lemma AddedOnLeft(nodes: seq<Node>, g: seq<Node>, l: Tree, i: nat, r: Tree, v: int)
    requires Shaped(nodes, Br(l, i, r)) && v < nodes[i].value
    requires |g| == |nodes| + 1 && g[|nodes|].value == v
    requires forall j :: 0 <= j < |nodes| ==> g[j].value == nodes[j].value
    requires multiset(Values(g, InOrder(InsertShape(nodes, l, v, |nodes|))))
          == multiset(Values(nodes, InOrder(l))) + multiset{v}
    ensures multiset(Values(g, InOrder(InsertShape(nodes, Br(l, i, r), v, |nodes|))))
         == multiset(Values(nodes, InOrder(Br(l, i, r)))) + multiset{v}
  {
    var n, t := |nodes|, Br(l, i, r);
    var x := nodes[i].value;
    var l' := InsertShape(nodes, l, v, n);
    InOrderInArena(nodes, r);
    ValuesFrame(nodes, g, InOrder(r));
    InOrderValues(nodes, l, i, r);
    InOrderValues(g, l', i, r);
    var A, B, C := Values(g, InOrder(l')), Values(nodes, InOrder(r)), Values(nodes, InOrder(l));
    assert InsertShape(nodes, t, v, n) == Br(l', i, r);
    assert Values(g, InOrder(r)) == B;
    JoinWithGain(A, C, x, B, v);
  }

  lemma AddedOnRight(nodes: seq<Node>, g: seq<Node>, l: Tree, i: nat, r: Tree, v: int)
    requires Shaped(nodes, Br(l, i, r)) && nodes[i].value <= v
    requires |g| == |nodes| + 1 && g[|nodes|].value == v
    requires forall j :: 0 <= j < |nodes| ==> g[j].value == nodes[j].value
    requires multiset(Values(g, InOrder(InsertShape(nodes, r, v, |nodes|))))
          == multiset(Values(nodes, InOrder(r))) + multiset{v}
    ensures multiset(Values(g, InOrder(InsertShape(nodes, Br(l, i, r), v, |nodes|))))
         == multiset(Values(nodes, InOrder(Br(l, i, r)))) + multiset{v}
  {
    var n, t := |nodes|, Br(l, i, r);
    var x := nodes[i].value;
    var r' := InsertShape(nodes, r, v, n);
    InOrderInArena(nodes, l);
    ValuesFrame(nodes, g, InOrder(l));
    InOrderValues(nodes, l, i, r);
    InOrderValues(g, l, i, r');
    var A, B := Values(nodes, InOrder(l)), Values(g, InOrder(r'));
    assert InsertShape(nodes, t, v, n) == Br(l, i, r');
    JoinWithGainRight(A, x, B, Values(nodes, InOrder(r)), v);
  }

  lemma JoinWithGainRight(a: seq<int>, x: int, b: seq<int>, d: seq<int>, v: int)
    requires multiset(b) == multiset(d) + multiset{v}
    ensures multiset(a + [x] + b) == multiset(a + [x] + d) + multiset{v}
  {
    calc {
      multiset(a + [x] + b);
      multiset(a) + multiset{x} + multiset(b);
      multiset(a) + multiset{x} + multiset(d) + multiset{v};
      multiset(a + [x] + d) + multiset{v};
    }
  }

  /** A side that gained `v` makes the joined sequence gain `v`. */
  lemma JoinWithGain(a: seq<int>, c: seq<int>, x: int, b: seq<int>, v: int)
    requires multiset(a) == multiset(c) + multiset{v}
    ensures multiset(a + [x] + b) == multiset(c + [x] + b) + multiset{v}
  {
    calc {
      multiset(a + [x] + b);
      multiset(a) + multiset{x} + multiset(b);
      multiset(c) + multiset{v} + multiset{x} + multiset(b);
      multiset(c) + multiset{x} + multiset(b) + multiset{v};
      multiset(c + [x] + b) + multiset{v};
    }
  }

  lemma InOrderValues(a: seq<Node>, l: Tree, i: nat, r: Tree)
    requires i < |a|
    ensures Values(a, InOrder(Br(l, i, r))) == Values(a, InOrder(l)) + [a[i].value] + Values(a, InOrder(r))
  {
    ValuesConcat(a, InOrder(l) + [i], InOrder(r));
    ValuesConcat(a, InOrder(l), [i]);
  }

  /** Add keeps the tree a well-formed search tree and grows it by exactly one node. */
  lemma AddKeepsWellFormed(nodes: seq<Node>, t: Tree, v: int)
    requires t.Br? && WellFormed(nodes, RootOf(t), t)
    ensures WellFormed(Grafted(nodes, t, v), RootOf(t), InsertShape(nodes, t, v, |nodes|))
  {
    GraftKeepsLinks(nodes, t, v, None);
    InsertKeepsOrder(nodes, Grafted(nodes, t, v), t, v);
  }
}
