/**
  The post-order iterator: a stack of nodes, top first, and the set of
  nodes already expanded.  A stacked node that is not yet expanded still
  owes its whole subtree in post-order; an expanded one owes only itself.
 */
module PostOrderIterators {
  import opened Shapes
  import opened Stacks
  import opened Traversals

  /** What a stack entry stands for. */
  datatype Frame = Expand(tree: Tree) | Emit(node: nat)

  function Top(f: Frame): nat
  {
    match f
    case Expand(t) => if t.Br? then t.idx else 0
    case Emit(i) => i
  }

  /** The arena index of each stack entry, top first. */
  function Tops(fs: seq<Frame>): (s: seq<nat>)
    ensures |s| == |fs|
  {
    if |fs| == 0 then [] else [Top(fs[0])] + Tops(fs[1..])
  }

  function Owes(f: Frame): seq<nat>
  {
    match f
    case Expand(t) => PostOrder(t)
    case Emit(i) => [i]
  }

  /** What a post-order stack still owes, top entry first. */
  function PostOwed(fs: seq<Frame>): seq<nat>
  {
    if |fs| == 0 then [] else Owes(fs[0]) + PostOwed(fs[1..])
  }

  function FrameIdx(f: Frame): set<nat>
  {
    if f.Expand? then Idx(f.tree) else {}
  }

  /** The nodes of the subtrees still to be expanded. */
  function Unexpanded(fs: seq<Frame>): set<nat>
  {
    if |fs| == 0 then {} else FrameIdx(fs[0]) + Unexpanded(fs[1..])
  }

  /** The loop measure: the number of nodes still to be expanded. */
  function Work(fs: seq<Frame>): nat
  {
    if |fs| == 0 then 0 else (if fs[0].Expand? then Size(fs[0].tree) else 0) + Work(fs[1..])
  }

  /** An unexpanded entry is an unvisited branch; an expanded one is a visited node. */
  ghost predicate FrameOK(nodes: seq<Node>, f: Frame, visited: set<nat>)
  {
    match f
    case Expand(t) => t.Br? && Shaped(nodes, t) && Unique(t) && Idx(t) !! visited
    case Emit(i) => i in visited && i < |nodes|
  }

  /** Every entry is sound, and no subtree to expand shares a node with one below it. */
  ghost predicate FramesOK(nodes: seq<Node>, fs: seq<Frame>, visited: set<nat>)
  {
    |fs| == 0 ||
    (FrameOK(nodes, fs[0], visited) && FrameIdx(fs[0]) !! Unexpanded(fs[1..]) && FramesOK(nodes, fs[1..], visited))
  }

  lemma Cons(nodes: seq<Node>, f: Frame, fs: seq<Frame>, visited: set<nat>)
    ensures Tops([f] + fs) == [Top(f)] + Tops(fs)
    ensures PostOwed([f] + fs) == Owes(f) + PostOwed(fs)
    ensures Unexpanded([f] + fs) == FrameIdx(f) + Unexpanded(fs)
    ensures Work([f] + fs) == (if f.Expand? then Size(f.tree) else 0) + Work(fs)
    ensures FramesOK(nodes, [f] + fs, visited)
        <==> FrameOK(nodes, f, visited) && FrameIdx(f) !! Unexpanded(fs) && FramesOK(nodes, fs, visited)
  {
    assert ([f] + fs)[1..] == fs;
  }

  /** Visiting a node outside every subtree still to expand keeps the entries sound. */
  lemma {:induction false} FramesGrow(nodes: seq<Node>, fs: seq<Frame>, visited: set<nat>, i: nat)
    requires FramesOK(nodes, fs, visited) && i !in Unexpanded(fs)
    ensures FramesOK(nodes, fs, visited + {i})
  {
    if |fs| > 0 {
      FramesGrow(nodes, fs[1..], visited, i);
    }
  }

  /** An optional child as a stack entry to expand. */
  function Child(t: Tree): seq<Frame>
  {
    if t.Br? then [Expand(t)] else []
  }

  /** The entries after expanding the top: it stays as expanded, its Right then its Left child go on top. */
  function ExpandNext(fs: seq<Frame>): seq<Frame>
    requires fs != [] && fs[0].Expand? && fs[0].tree.Br?
  {
    var t := fs[0].tree;
    Child(t.left) + (Child(t.right) + ([Emit(t.idx)] + fs[1..]))
  }

  /** Pushing an optional child to expand. */
  lemma PushChild(nodes: seq<Node>, t: Tree, fs: seq<Frame>, visited: set<nat>)
    requires Shaped(nodes, t) && Unique(t) && Idx(t) !! visited && Idx(t) !! Unexpanded(fs)
    requires FramesOK(nodes, fs, visited)
    ensures FramesOK(nodes, Child(t) + fs, visited)
    ensures Tops(Child(t) + fs) == Pushed(RootOf(t)) + Tops(fs)
    ensures PostOwed(Child(t) + fs) == PostOrder(t) + PostOwed(fs)
    ensures Unexpanded(Child(t) + fs) == Idx(t) + Unexpanded(fs)
    ensures Work(Child(t) + fs) == Size(t) + Work(fs)
  {
    if t.Br? {
      Cons(nodes, Expand(t), fs, visited);
    } else {
      assert Child(t) + fs == fs;
    }
  }

  /** The top entry, read off the visited set. */
  lemma TopFrame(nodes: seq<Node>, fs: seq<Frame>, visited: set<nat>)
    requires FramesOK(nodes, fs, visited) && fs != []
    ensures Tops(fs) == [Top(fs[0])] + Tops(fs[1..])
    ensures PostOwed(fs) == Owes(fs[0]) + PostOwed(fs[1..])
    ensures Unexpanded(fs) == FrameIdx(fs[0]) + Unexpanded(fs[1..])
    ensures FramesOK(nodes, fs[1..], visited)
    ensures Top(fs[0]) in visited <==> fs[0].Emit?
    ensures Top(fs[0]) < |nodes|
  {
    Cons(nodes, fs[0], fs[1..], visited);
    assert [fs[0]] + fs[1..] == fs;
    if fs[0].Expand? {
      assert Top(fs[0]) in Idx(fs[0].tree);
    }
  }

  /** Expanding the top entry: it is marked visited and its children go on top. */
  lemma ExpandStep(nodes: seq<Node>, fs: seq<Frame>, visited: set<nat>)
    requires FramesOK(nodes, fs, visited) && fs != [] && fs[0].Expand?
    ensures fs[0].tree.Br? && fs[0].tree.idx < |nodes| && fs[0].tree.idx !in visited
    ensures FramesOK(nodes, ExpandNext(fs), visited + {fs[0].tree.idx})
    ensures Tops(ExpandNext(fs))
         == Pushed(nodes[fs[0].tree.idx].left) + (Pushed(nodes[fs[0].tree.idx].right) + Tops(fs))
    ensures PostOwed(ExpandNext(fs)) == PostOwed(fs)
    ensures Unexpanded(ExpandNext(fs)) <= Unexpanded(fs)
    ensures Work(ExpandNext(fs)) < Work(fs)
  {
    var t, rest := fs[0].tree, fs[1..];
    var i := t.idx;
    TopFrame(nodes, fs, visited);
    var v := visited + {i};
    assert i in Idx(t);
    FramesGrow(nodes, rest, visited, i);
    var withEmit := [Emit(i)] + rest;
    Cons(nodes, Emit(i), rest, v);
    PushChild(nodes, t.right, withEmit, v);
    var withRight := Child(t.right) + withEmit;
    PushChild(nodes, t.left, withRight, v);
    var L, R, O := PostOrder(t.left), PostOrder(t.right), PostOwed(rest);
    assert PostOwed(ExpandNext(fs)) == L + (R + ([i] + O));
    Assoc(R, [i], O);
    Assoc(L, R + [i], O);
    Assoc(L, R, [i]);
  }

  /** The stack, the visited set and the yielded prefix agree with the frames. */
  ghost predicate Sound(nodes: seq<Node>, root: Option<nat>, shape: Tree,
                        frames: seq<Frame>, visited: set<nat>, stack: seq<nat>, emitted: seq<nat>)
  {
    && Structured(nodes, root, shape) && Closed(nodes, shape)
    && FramesOK(nodes, frames, visited) && stack == Tops(frames)
    && visited <= Idx(shape) && Unexpanded(frames) <= Idx(shape)
    && emitted + PostOwed(frames) == PostOrder(shape)
  }

  /** The top of the stack is a node of the tree. */
  lemma TopInTree(nodes: seq<Node>, root: Option<nat>, shape: Tree,
                  frames: seq<Frame>, visited: set<nat>, stack: seq<nat>, emitted: seq<nat>)
    requires Sound(nodes, root, shape, frames, visited, stack, emitted) && stack != []
    ensures stack[0] in Idx(shape) && stack[0] < |nodes|
  {
    TopFrame(nodes, frames, visited);
    if frames[0].Expand? {
      assert stack[0] in Idx(frames[0].tree);
    }
  }

  /** Popping a visited top yields it. */
  lemma EmitKeeps(nodes: seq<Node>, root: Option<nat>, shape: Tree,
                  frames: seq<Frame>, visited: set<nat>, stack: seq<nat>, emitted: seq<nat>)
    requires Sound(nodes, root, shape, frames, visited, stack, emitted) && stack != [] && stack[0] in visited
    ensures PostOwed(frames) == [stack[0]] + PostOwed(frames[1..])
    ensures Sound(nodes, root, shape, frames[1..], visited, stack[1..], emitted + [stack[0]])
  {
    TopFrame(nodes, frames, visited);
    Assoc(emitted, [stack[0]], PostOwed(frames[1..]));
  }

  /** Expanding an unvisited top marks it visited and pushes its Right, then its Left child. */
  lemma ExpandKeeps(nodes: seq<Node>, root: Option<nat>, shape: Tree,
                    frames: seq<Frame>, visited: set<nat>, stack: seq<nat>, emitted: seq<nat>)
    requires Sound(nodes, root, shape, frames, visited, stack, emitted) && stack != [] && stack[0] !in visited
    ensures frames[0].Expand? && frames[0].tree.Br? && stack[0] < |nodes|
    ensures Sound(nodes, root, shape, ExpandNext(frames), visited + {stack[0]},
                  Pushed(nodes[stack[0]].left) + (Pushed(nodes[stack[0]].right) + stack), emitted)
    ensures PostOwed(ExpandNext(frames)) == PostOwed(frames)
    ensures Work(ExpandNext(frames)) < Work(frames)
  {
    TopFrame(nodes, frames, visited);
    TopInTree(nodes, root, shape, frames, visited, stack, emitted);
    ExpandStep(nodes, frames, visited);
  }

  class PostOrderIterator {
    const nodes: seq<Node>
    const root: Option<nat>
    ghost const shape: Tree

    var current: Option<nat>
    var stack: seq<nat>
    var visited: set<nat>
    /** What each stack entry stands for. */
    ghost var frames: seq<Frame>
    /** The nodes yielded since construction or the last Reset. */
    ghost var emitted: seq<nat>

    ghost predicate Valid()
      reads this
    {
      && Sound(nodes, root, shape, frames, visited, stack, emitted)
      && (current.Some? ==> current.value in Idx(shape))
    }

    /** The nodes still to be yielded, in order. */
    ghost function Remaining(): seq<nat>
      reads this
    {
      PostOwed(frames)
    }

    /** The state right after construction or Reset. */
    ghost predicate Initial()
      reads this
    {
      && stack == (if root.Some? then [root.value] else [])
      && visited == {}
      && current == None
      && emitted == []
    }

    constructor (nodes: seq<Node>, root: Option<nat>, ghost shape: Tree)
      requires Structured(nodes, root, shape)
      ensures this.nodes == nodes && this.root == root && this.shape == shape
      ensures Valid() && Initial() && Remaining() == PostOrder(shape)
    {
      this.nodes, this.root, this.shape := nodes, root, shape;
      current, visited, emitted := None, {}, [];
      stack, frames := [], Child(shape);
      if root.Some? {
        stack := [root.value];
      }
      PushChild(nodes, shape, [], {});
      assert Child(shape) + [] == Child(shape);
      StructuredIsClosed(nodes, root, shape);
    }

    /** The value of the node `current` names: one of the tree's values. */
    function Current(): (v: int)
      reads this
      requires Valid() && current.Some?
      ensures v in Values(nodes, PostOrder(shape))
    {
      ValueInOrder(nodes, shape, current.value);
      nodes[current.value].value
    }

    method MoveNext() returns (more: bool)
      requires Valid()
      modifies this
      ensures Valid()
      ensures more == (old(Remaining()) != [])
      ensures more ==> && current == Some(old(Remaining())[0])
                       && current.value in visited
                       && emitted == old(emitted) + [old(Remaining())[0]]
                       && Remaining() == old(Remaining())[1..]
      ensures !more ==> current == None && stack == [] && emitted == old(emitted) && Remaining() == []
      ensures old(visited) <= visited
    {
      ghost var before, owed, seen := emitted, PostOwed(frames), visited;
      while |stack| > 0
        invariant Sound(nodes, root, shape, frames, visited, stack, emitted)
        invariant current.Some? ==> current.value in Idx(shape)
        invariant emitted == before && PostOwed(frames) == owed && seen <= visited
        decreases Work(frames)
      {
        var top := stack[0];
        TopInTree(nodes, root, shape, frames, visited, stack, emitted);
        current := Some(top);
        if top in visited {
          EmitKeeps(nodes, root, shape, frames, visited, stack, emitted);
          stack, frames, emitted := stack[1..], frames[1..], emitted + [top];
          return true;
        }
        ExpandKeeps(nodes, root, shape, frames, visited, stack, emitted);
        ghost var below := stack;
        visited := visited + {top};
        if nodes[top].right.Some? {
          stack := [nodes[top].right.value] + stack;
        } else {
          assert stack == [] + below;
        }
        ghost var middle := stack;
        assert middle == Pushed(nodes[top].right) + below;
        if nodes[top].left.Some? {
          stack := [nodes[top].left.value] + stack;
        } else {
          assert stack == [] + middle;
        }
        assert stack == Pushed(nodes[top].left) + middle;
        frames := ExpandNext(frames);
      }
      current := None;
      return false;
    }

    method Reset()
      requires Valid()
      modifies this
      ensures Valid() && Initial() && Remaining() == PostOrder(shape)
    {
      stack, frames := [], Child(shape);
      visited := {};
      if root.Some? {
        stack := [root.value];
      }
      current := None;
      emitted := [];
      PushChild(nodes, shape, [], {});
      assert Child(shape) + [] == Child(shape);
    }

    /** Moves `current` by its links alone, as PreviousTarget says; the stack and `visited` stay as they are. */
    method Previous() returns (moved: bool)
      requires Valid()
      modifies this`current
      ensures Valid()
      ensures old(current) == None ==> !moved && current == None
      ensures old(current).Some? ==> current == PreviousTarget(nodes, shape, old(current).value)
      ensures moved == current.Some?
    {
      if current.None? {
        return false;
      }
      var c := current.value;
      if nodes[c].right.None? {
        if nodes[c].parent.None? || nodes[nodes[c].parent.value].right == Some(c) {
          current := None;
          return false;
        }
        current := nodes[c].parent;
        return true;
      }
      var r := nodes[c].right.value;
      if nodes[r].left.None? {
        current := Some(r);
        return true;
      }
      var y := nodes[r].left.value;
      ghost var u := Subtree(shape, y);
      SubtreeShaped(nodes, shape, y);
      while nodes[y].left.Some?
        invariant u.Br? && u.idx == y && Shaped(nodes, u) && u.idx in Idx(shape)
        invariant Leftmost(u) == Leftmost(Subtree(shape, nodes[r].left.value))
        decreases u
      {
        y, u := nodes[y].left.value, u.left;
      }
      current := Some(y);
      return true;
    }
  }

  /**
    Where Previous moves from node `c`: nowhere when `c` has no Right child
    and is the top or a Right child; to its Parent when it has no Right
    child and is a Left child; to its Right child when that has no Left
    child; and otherwise to the end of the Left chain below the Right
    child's Left child.
   */
  function PreviousTarget(nodes: seq<Node>, t: Tree, c: nat): (p: Option<nat>)
    requires Closed(nodes, t) && c in Idx(t)
    ensures p.Some? ==> p.value in Idx(t)
  {
    var n := nodes[c];
    if n.right.None? then
      if n.parent.None? || nodes[n.parent.value].right == Some(c) then None else n.parent
    else
      var r := n.right.value;
      if nodes[r].left.None? then Some(r) else Some(Leftmost(Subtree(t, nodes[r].left.value)))
  }

  lemma ValueInOrder(nodes: seq<Node>, t: Tree, c: nat)
    requires Shaped(nodes, t) && c in Idx(t)
    ensures c < |nodes| && nodes[c].value in Values(nodes, PostOrder(t))
  {
    ShapedInArena(nodes, t);
    OrdersArePermutations(t);
    assert c in multiset(PostOrder(t));
    var k :| 0 <= k < |PostOrder(t)| && PostOrder(t)[k] == c;
    assert Values(nodes, PostOrder(t))[k] == nodes[c].value;
  }

  /** `d` comes immediately after `c` somewhere in `s`. */
  ghost predicate Follows(s: seq<nat>, c: nat, d: nat)
  {
    exists k :: 0 <= k && k + 1 < |s| && s[k] == c && s[k + 1] == d
  }

  lemma FollowsWithin(whole: seq<nat>, before: seq<nat>, mid: seq<nat>, after: seq<nat>,
                      a: seq<nat>, c: nat, d: nat, b: seq<nat>)
    requires whole == before + mid + after && mid == a + [c] + ([d] + b)
    ensures Follows(whole, c, d)
  {
    var k := |before| + |a|;
    assert whole[k] == c && whole[k + 1] == d;
  }

  /**
    Whenever Previous moves, it moves to the node that comes right after
    `c` in in-order: it is a partial in-order successor, and not a step
    backwards in post-order.
   */
  lemma PreviousFollowsInOrder(nodes: seq<Node>, root: Option<nat>, t: Tree, c: nat)
    requires Structured(nodes, root, t) && Closed(nodes, t) && c in Idx(t)
    requires PreviousTarget(nodes, t, c).Some?
    ensures Follows(InOrder(t), c, PreviousTarget(nodes, t, c).value)
  {
    var d := PreviousTarget(nodes, t, c).value;
    if nodes[c].right.Some? {
      var s := Subtree(t, c);
      SubtreeShaped(nodes, t, c);
      var cr := s.right;
      assert cr.Br? && Shaped(nodes, cr);
      if cr.left.Br? {
        var y := cr.left.idx;
        SubtreeShaped(nodes, t, y);
        ShapedDetermined(nodes, Subtree(t, y), cr.left);
      }
      assert d == Leftmost(cr);
      var rest := InOrderStartsLeftmost(cr);
      var before, after := InOrderSegment(t, c);
      FollowsWithin(InOrder(t), before, InOrder(s), after, InOrder(s.left), c, d, rest);
    } else {
      var p := nodes[c].parent.value;
      assert c != t.idx;
      ParentHoldsChild(nodes, t, None, c);
      var s := Subtree(t, p);
      SubtreeShaped(nodes, t, p);
      assert s.left.Br? && s.left.idx == c && Shaped(nodes, s.left);
      assert s.left.right == Nil;
      var before, after := InOrderSegment(t, p);
      var ll, r := InOrder(s.left.left), InOrder(s.right);
      assert InOrder(s.left) == ll + [c] + [];
      assert InOrder(s) == ll + [c] + [p] + r;
      Assoc(ll + [c], [p], r);
      Assoc(ll, [c], [p] + r);
      FollowsWithin(InOrder(t), before, InOrder(s), after, InOrder(s.left.left), c, p, InOrder(s.right));
    }
  }
}
