/**
  The in-order iterator: a stack of nodes, top first.  Each stacked node
  still owes itself followed by its whole Right subtree in in-order.
 */
module InOrderIterators {
  import opened Shapes
  import opened Stacks

  /** What a stacked branch owes: its node, then its Right subtree in in-order. */
  function Tail(t: Tree): seq<nat>
  {
    match t
    case Nil => []
    case Br(_, i, r) => [i] + InOrder(r)
  }

  /** What an in-order stack still owes, top entry first. */
  function InOwed(pending: seq<Tree>): seq<nat>
  {
    if |pending| == 0 then [] else Tail(pending[0]) + InOwed(pending[1..])
  }

  /** The chain of Left links from the top of `t`, deepest node first: the order PushLeftNodes leaves them in. */
  function LeftChain(t: Tree): seq<nat>
  {
    match t
    case Nil => []
    case Br(l, i, _) => LeftChain(l) + [i]
  }

  /** The top of a pushed Left chain is the tree's leftmost node. */
  lemma {:induction false} LeftChainStartsLeftmost(t: Tree)
    requires t.Br?
    ensures LeftChain(t) != [] && LeftChain(t)[0] == Leftmost(t)
  {
    if t.left.Br? {
      LeftChainStartsLeftmost(t.left);
    }
  }

  lemma PushOwed(pending: seq<Tree>, t: Tree)
    requires t.Br?
    ensures InOwed([t] + pending) == [t.idx] + InOrder(t.right) + InOwed(pending)
  {
    assert ([t] + pending)[1..] == pending;
  }

  lemma PopOwed(pending: seq<Tree>)
    requires pending != [] && pending[0].Br?
    ensures InOwed(pending) == [pending[0].idx] + (InOrder(pending[0].right) + InOwed(pending[1..]))
  {
  }

  /** One push of PushLeftNodes keeps the debt the loop has still to produce. */
  lemma DescendLeft(u: Tree, pending: seq<Tree>, before: seq<nat>)
    requires u.Br? && InOrder(u) + InOwed(pending) == before
    ensures InOrder(u.left) + InOwed([u] + pending) == before
  {
    var L, R, P := InOrder(u.left), InOrder(u.right), InOwed(pending);
    PushOwed(pending, u);
    Assoc([u.idx], R, P);
    Assoc(L, [u.idx], R + P);
    Assoc(L + [u.idx], R, P);
  }

  class InOrderIterator {
    const nodes: seq<Node>
    const root: Option<nat>
    ghost const shape: Tree

    var current: Option<nat>
    var stack: seq<nat>
    /** The subtree whose top each stack entry is. */
    ghost var pending: seq<Tree>
    /** The nodes yielded since construction or the last Reset. */
    ghost var emitted: seq<nat>

    ghost predicate Valid()
      reads this
    {
      && Shaped(nodes, shape) && RootOf(shape) == root
      && Entries(nodes, pending) && stack == Roots(pending)
      && emitted + InOwed(pending) == InOrder(shape)
      && (current.Some? ==> current.value < |nodes| && emitted != [] && emitted[|emitted| - 1] == current.value)
    }

    /** The nodes still to be yielded, in order. */
    ghost function Remaining(): seq<nat>
      reads this
    {
      InOwed(pending)
    }

    /** The state right after construction or Reset. */
    ghost predicate Initial()
      reads this
    {
      && stack == LeftChain(shape)
      && current == None
      && emitted == []
    }

    constructor (nodes: seq<Node>, root: Option<nat>, ghost shape: Tree)
      requires Shaped(nodes, shape) && RootOf(shape) == root
      ensures this.nodes == nodes && this.root == root && this.shape == shape
      ensures Valid() && Initial() && Remaining() == InOrder(shape)
    {
      this.nodes, this.root, this.shape := nodes, root, shape;
      current, stack, pending, emitted := None, [], [], [];
      new;
      assert InOwed(pending) == [];
      PushLeftNodes(root, shape);
      assert LeftChain(shape) + [] == LeftChain(shape);
      assert InOrder(shape) + [] == InOrder(shape);
    }

    /** Pushes `node` and then every node down its chain of Left links. */
    method PushLeftNodes(node: Option<nat>, ghost t: Tree)
      requires Shaped(nodes, t) && RootOf(t) == node
      requires Entries(nodes, pending) && stack == Roots(pending)
      modifies this`stack, this`pending
      ensures Entries(nodes, pending) && stack == Roots(pending)
      ensures stack == LeftChain(t) + old(stack)
      ensures InOwed(pending) == InOrder(t) + old(InOwed(pending))
    {
      var n, u := node, t;
      while n.Some?
        invariant Shaped(nodes, u) && RootOf(u) == n
        invariant Entries(nodes, pending) && stack == Roots(pending)
        invariant LeftChain(u) + stack == LeftChain(t) + old(stack)
        invariant InOrder(u) + InOwed(pending) == InOrder(t) + old(InOwed(pending))
        decreases u
      {
        PushBranch(nodes, pending, u);
        DescendLeft(u, pending, InOrder(t) + old(InOwed(pending)));
        Assoc(LeftChain(u.left), [u.idx], stack);
        stack, pending := [n.value] + stack, [u] + pending;
        n, u := nodes[n.value].left, u.left;
      }
    }

    /** The value of the node last yielded. */
    function Current(): (v: int)
      reads this
      requires Valid() && current.Some?
      ensures v == Values(nodes, emitted)[|emitted| - 1]
    {
      nodes[current.value].value
    }

    method MoveNext() returns (more: bool)
      requires Valid()
      modifies this
      ensures Valid()
      ensures more == (old(stack) != []) == (old(Remaining()) != [])
      ensures more ==> && current == Some(old(stack)[0])
                       && stack == LeftChain(old(pending)[0].right) + old(stack)[1..]
                       && emitted == old(emitted) + [old(Remaining())[0]]
                       && Remaining() == old(Remaining())[1..]
      ensures !more ==> current == None && stack == [] && emitted == old(emitted) && Remaining() == []
    {
      if |stack| == 0 {
        current := None;
        return false;
      }
      ghost var t := pending[0];
      PopBranch(nodes, pending);
      PopOwed(pending);
      var top := stack[0];
      Assoc(emitted, [top], InOrder(t.right) + InOwed(pending[1..]));
      current, emitted := Some(top), emitted + [top];
      stack, pending := stack[1..], pending[1..];
      PushLeftNodes(nodes[top].right, t.right);
      return true;
    }

    method Reset()
      requires Valid()
      modifies this
      ensures Valid() && Initial() && Remaining() == InOrder(shape)
    {
      stack, pending := [], [];
      assert InOwed(pending) == [];
      PushLeftNodes(root, shape);
      assert LeftChain(shape) + [] == LeftChain(shape);
      assert InOrder(shape) + [] == InOrder(shape);
      current := None;
      emitted := [];
    }
  }
}
