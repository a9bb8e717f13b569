/**
  Iterator stacks: a stack of arena indices, top first, together with the
  ghost subtree each entry stands for.
 */
module Stacks {
  import opened Shapes

  /** The arena index at the top of each stacked subtree. */
  function Roots(pending: seq<Tree>): (s: seq<nat>)
    ensures |s| == |pending|
  {
    if |pending| == 0 then []
    else [if pending[0].Br? then pending[0].idx else 0] + Roots(pending[1..])
  }

  /** Every stacked subtree is a branch whose links the arena follows. */
  ghost predicate Entries(nodes: seq<Node>, pending: seq<Tree>)
  {
    forall k :: 0 <= k < |pending| ==> pending[k].Br? && Shaped(nodes, pending[k])
  }

  /** The entry pushed for an optional child: none for an absent one. */
  function Pushed(child: Option<nat>): seq<nat>
  {
    if child.Some? then [child.value] else []
  }

  /** A subtree as a stack entry: none for an absent child. */
  function Entry(t: Tree): seq<Tree>
  {
    if t.Br? then [t] else []
  }

  /** Pushing one branch onto the stacked subtrees. */
  lemma PushBranch(nodes: seq<Node>, pending: seq<Tree>, t: Tree)
    requires Entries(nodes, pending) && t.Br? && Shaped(nodes, t)
    ensures Entries(nodes, [t] + pending)
    ensures Roots([t] + pending) == [t.idx] + Roots(pending)
  {
    assert ([t] + pending)[1..] == pending;
  }

  /** Popping the top of the stacked subtrees. */
  lemma PopBranch(nodes: seq<Node>, pending: seq<Tree>)
    requires Entries(nodes, pending) && pending != []
    ensures pending[0].Br? && Shaped(nodes, pending[0]) && pending[0].idx < |nodes|
    ensures Roots(pending) == [pending[0].idx] + Roots(pending[1..])
    ensures Entries(nodes, pending[1..])
  {
    assert Shaped(nodes, pending[0]);
  }

  lemma Assoc<T>(a: seq<T>, b: seq<T>, c: seq<T>)
    ensures a + b + c == a + (b + c)
  {
  }
}
