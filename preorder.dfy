/**
  The pre-order iterator: an explicit stack of nodes, top first.  Each
  stacked node still owes its whole subtree in pre-order.
 */
module PreOrderIterators {
  import opened Shapes
  import opened Stacks

  /** What a pre-order stack still owes, top entry first. */
  function PreOwed(pending: seq<Tree>): seq<nat>
  {
    if |pending| == 0 then [] else PreOrder(pending[0]) + PreOwed(pending[1..])
  }

  /** The stacked subtrees after popping the top and pushing its Right, then its Left child. */
  function PreNext(pending: seq<Tree>): seq<Tree>
    requires pending != [] && pending[0].Br?
  {
    Entry(pending[0].left) + (Entry(pending[0].right) + pending[1..])
  }

  lemma PreStep(nodes: seq<Node>, pending: seq<Tree>)
    requires Entries(nodes, pending) && pending != []
    ensures pending[0].Br? && pending[0].idx < |nodes| && Roots(pending)[0] == pending[0].idx
    ensures Entries(nodes, PreNext(pending))
    ensures Roots(PreNext(pending))
         == Pushed(nodes[pending[0].idx].left) + (Pushed(nodes[pending[0].idx].right) + Roots(pending)[1..])
    ensures PreOwed(pending) == [pending[0].idx] + PreOwed(PreNext(pending))
  {
    var t, rest := pending[0], pending[1..];
    assert Shaped(nodes, t);
    assert pending == [t] + rest;
    PushEntry(nodes, rest, t);
    var withRight := Entry(t.right) + rest;
    PushEntry(nodes, rest, t.right);
    PushEntry(nodes, withRight, t.left);
    PreOrderSplit(t, PreOwed(rest));
  }

  /** Pushing a subtree (nothing for Nil) onto the stacked subtrees. */
  lemma PushEntry(nodes: seq<Node>, pending: seq<Tree>, t: Tree)
    requires Entries(nodes, pending) && Shaped(nodes, t)
    ensures Entries(nodes, Entry(t) + pending)
    ensures Roots(Entry(t) + pending) == Pushed(RootOf(t)) + Roots(pending)
    ensures PreOwed(Entry(t) + pending) == PreOrder(t) + PreOwed(pending)
  {
    if t.Br? {
      assert ([t] + pending)[1..] == pending;
    } else {
      assert Entry(t) + pending == pending;
    }
  }

  lemma PreOrderSplit(t: Tree, rest: seq<nat>)
    requires t.Br?
    ensures PreOrder(t) + rest == [t.idx] + (PreOrder(t.left) + (PreOrder(t.right) + rest))
  {
  }

  class PreOrderIterator {
    const nodes: seq<Node>
    const root: Option<nat>
    ghost const shape: Tree

    var current: Option<nat>
    var stack: seq<nat>
    /** The subtree each stack entry stands for. */
    ghost var pending: seq<Tree>
    /** The nodes yielded since construction or the last Reset. */
    ghost var emitted: seq<nat>

    ghost predicate Valid()
      reads this
    {
      && Shaped(nodes, shape) && RootOf(shape) == root
      && Entries(nodes, pending) && stack == Roots(pending)
      && emitted + PreOwed(pending) == PreOrder(shape)
      && (current.Some? ==> current.value < |nodes| && emitted != [] && emitted[|emitted| - 1] == current.value)
    }

    /** The nodes still to be yielded, in order. */
    ghost function Remaining(): seq<nat>
      reads this
    {
      PreOwed(pending)
    }

    /** The state right after construction or Reset. */
    ghost predicate Initial()
      reads this
    {
      && stack == (if root.Some? then [root.value] else [])
      && current == None
      && emitted == []
    }

    constructor (nodes: seq<Node>, root: Option<nat>, ghost shape: Tree)
      requires Shaped(nodes, shape) && RootOf(shape) == root
      ensures this.nodes == nodes && this.root == root && this.shape == shape
      ensures Valid() && Initial() && Remaining() == PreOrder(shape)
    {
      this.nodes, this.root, this.shape := nodes, root, shape;
      current := None;
      emitted := [];
      if root.Some? {
        stack, pending := [root.value], [shape];
      } else {
        stack, pending := [], [];
      }
    }

    /** The value of the node last yielded. */
    function Current(): (v: int)
      reads this
      requires Valid() && current.Some?
      ensures v == Values(nodes, emitted)[|emitted| - 1]
    {
      nodes[current.value].value
    }

    method MoveNext() returns (more: bool)
      requires Valid()
      modifies this
      ensures Valid()
      ensures more == (old(stack) != []) == (old(Remaining()) != [])
      ensures more ==> && current == Some(old(stack)[0])
                       && stack == Pushed(nodes[old(stack)[0]].left) + (Pushed(nodes[old(stack)[0]].right) + old(stack)[1..])
                       && emitted == old(emitted) + [old(Remaining())[0]]
                       && Remaining() == old(Remaining())[1..]
      ensures !more ==> current == None && stack == [] && emitted == old(emitted) && Remaining() == []
    {
      if |stack| == 0 {
        current := None;
        return false;
      }
      var top := stack[0];
      PreStep(nodes, pending);
      Assoc(emitted, [top], PreOwed(PreNext(pending)));
      stack := stack[1..];
      ghost var below := stack;
      if nodes[top].right.Some? {
        stack := [nodes[top].right.value] + stack;
      } else {
        assert stack == [] + below;
      }
      ghost var middle := stack;
      assert middle == Pushed(nodes[top].right) + below;
      if nodes[top].left.Some? {
        stack := [nodes[top].left.value] + stack;
      } else {
        assert stack == [] + middle;
      }
      assert stack == Pushed(nodes[top].left) + middle;
      current, pending, emitted := Some(top), PreNext(pending), emitted + [top];
      return true;
    }

    method Reset()
      requires Valid()
      modifies this
      ensures Valid() && Initial() && Remaining() == PreOrder(shape)
    {
      stack, pending := [], [];
      if root.Some? {
        stack, pending := [root.value], [shape];
      }
      current := None;
      emitted := [];
    }
  }
}
