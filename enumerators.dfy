/**
  The enumerator interface the three iterators share, the wrapper that
  hands one enumerator out as an enumerable, and the loop a `foreach`
  statement runs over an enumerable.
 */
module Enumerators {
  import opened Shapes
  import opened Traversals
  import opened Stacks
  import opened PreOrderIterators
  import opened InOrderIterators
  import opened PostOrderIterators

  /** One of the three iterators, seen through the enumerator interface. */
  datatype Enumerator =
    | PreEnum(pre: PreOrderIterator)
    | InEnum(inOrder: InOrderIterator)
    | PostEnum(post: PostOrderIterator)
  {
    /** The iterator object behind the interface. */
    ghost function Obj(): object
    {
      match this
      case PreEnum(it) => it
      case InEnum(it) => it
      case PostEnum(it) => it
    }

    ghost predicate Valid()
      reads Obj()
    {
      match this
      case PreEnum(it) => it.Valid()
      case InEnum(it) => it.Valid()
      case PostEnum(it) => it.Valid()
    }

    /** The arena the iterator walks. */
    function Nodes(): seq<Node>
    {
      match this
      case PreEnum(it) => it.nodes
      case InEnum(it) => it.nodes
      case PostEnum(it) => it.nodes
    }

    /** The whole sequence of nodes the iterator yields from its initial state. */
    ghost function Full(): seq<nat>
    {
      match this
      case PreEnum(it) => PreOrder(it.shape)
      case InEnum(it) => InOrder(it.shape)
      case PostEnum(it) => PostOrder(it.shape)
    }

    /** The nodes still to be yielded. */
    ghost function Remaining(): seq<nat>
      reads Obj()
    {
      match this
      case PreEnum(it) => it.Remaining()
      case InEnum(it) => it.Remaining()
      case PostEnum(it) => it.Remaining()
    }

    /** The state right after construction or Reset. */
    ghost predicate Initial()
      reads Obj()
    {
      match this
      case PreEnum(it) => it.Initial()
      case InEnum(it) => it.Initial()
      case PostEnum(it) => it.Initial()
    }

    /** Whether `current` names a node. */
    predicate HasCurrent()
      reads Obj()
    {
      match this
      case PreEnum(it) => it.current.Some?
      case InEnum(it) => it.current.Some?
      case PostEnum(it) => it.current.Some?
    }

    /** The value of the node `current` names. */
    function Current(): int
      reads Obj()
      requires Valid() && HasCurrent()
    {
      match this
      case PreEnum(it) => it.Current()
      case InEnum(it) => it.Current()
      case PostEnum(it) => it.Current()
    }

    method MoveNext() returns (more: bool)
      requires Valid()
      modifies Obj()
      ensures Valid()
      ensures more == (old(Remaining()) != [])
      ensures more ==> HasCurrent() && Remaining() == old(Remaining())[1..]
                       && [Current()] == Values(Nodes(), old(Remaining())[..1])
      ensures !more ==> !HasCurrent() && Remaining() == []
    {
      match this
      case PreEnum(it) =>
        more := it.MoveNext();
      case InEnum(it) =>
        more := it.MoveNext();
      case PostEnum(it) =>
        more := it.MoveNext();
    }

    method Reset()
      requires Valid()
      modifies Obj()
      ensures Valid() && Initial() && Remaining() == Full()
    {
      match this
      case PreEnum(it) =>
        it.Reset();
      case InEnum(it) =>
        it.Reset();
      case PostEnum(it) =>
        it.Reset();
    }
  }

  /** An enumerable that resets its one enumerator once and then hands out that same enumerator. */
  class IterableWrapper {
    const enumerator: Enumerator

    constructor (enumerator: Enumerator)
      requires enumerator.Valid()
      modifies enumerator.Obj()
      ensures this.enumerator == enumerator
      ensures enumerator.Valid() && enumerator.Initial() && enumerator.Remaining() == enumerator.Full()
    {
      this.enumerator := enumerator;
      new;
      enumerator.Reset();
    }

    method GetEnumerator() returns (e: Enumerator)
      ensures e == enumerator
    {
      e := enumerator;
    }
  }

  /** The loop a `foreach` statement runs: MoveNext until it answers false, collecting Current. */
  method ForEach(e: Enumerator) returns (xs: seq<int>)
    requires e.Valid()
    modifies e.Obj()
    ensures e.Valid() && e.Remaining() == [] && !e.HasCurrent()
    ensures xs == Values(e.Nodes(), old(e.Remaining()))
  {
    ghost var all := old(e.Remaining());
    xs := [];
    var more := e.MoveNext();
    if more {
      ValuesSplit(e.Nodes(), all);
    }
    while more
      invariant e.Valid()
      invariant more ==> e.HasCurrent() && xs + [e.Current()] + Values(e.Nodes(), e.Remaining()) == Values(e.Nodes(), all)
      invariant !more ==> !e.HasCurrent() && e.Remaining() == [] && xs == Values(e.Nodes(), all)
      decreases |e.Remaining()| + (if more then 1 else 0)
    {
      ghost var before := e.Remaining();
      xs := xs + [e.Current()];
      more := e.MoveNext();
      if more {
        ValuesSplit(e.Nodes(), before);
        Assoc(xs, [e.Current()], Values(e.Nodes(), e.Remaining()));
      }
    }
  }

  /** The values of a non-empty sequence: its first value, then the rest. */
  lemma ValuesSplit(nodes: seq<Node>, s: seq<nat>)
    requires s != []
    ensures Values(nodes, s) == Values(nodes, s[..1]) + Values(nodes, s[1..])
  {
    assert s == s[..1] + s[1..];
    ValuesConcat(nodes, s[..1], s[1..]);
  }
}
