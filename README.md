# A verified model of the Lambda binary search tree

The model covers `BinaryTree<T>` from `Lambda/Lambda/BinaryTree.cs`. This is an unbalanced binary search tree. Each node holds a value and links to its Left child, its Right child and its Parent.

- **Insertion.** `Add` hangs a new value on the first empty child slot along the search path:
  - a strictly smaller value goes left;
  - an equal or larger value goes right.
- **Iterators.** The tree hands out three enumerators, all stack-based over the nodes:
  - pre-order;
  - in-order, using `PushLeftNodes`;
  - post-order, which keeps a `visited` set and walks with a peek/expand loop.
- **`Previous`.** The post-order enumerator also offers `Previous`, a step that follows `current`'s links.
- **Other operations:**
  - `GetEnumerator` (the default in-order enumerator);
  - the three `*Traversal` factories, which wrap an enumerator in an `IterableWrapper`;
  - `InOrderLambda`, a recursive list builder.

How the model represents the source:

- **Nodes.** The C# node objects become an arena `seq<Node>`. Every link is an `Option<nat>` index into it.
- **Shape.** A ghost `Tree` (`Nil | Br(left, idx, right)`) names the arena index of each branch. It ties the arena to the abstract tree (module `Shapes`).
- **Well-formedness.** `WellFormed` says four things:
  - the links follow the shape;
  - every Parent link points at the node that holds the child;
  - no index occurs twice;
  - the tree is in search order, with smaller values on the left and equal and larger values on the right.
- **Reference traversals.** The three reference orders are the plain recursive functions `PreOrder`, `InOrder` and `PostOrder` over the shape.
- **Classes.** The tree and the three iterators are classes whose methods change their fields in place.
- **Stacks.** Each iterator's `Stack<Node>` is a `seq<nat>` with the top at index 0.
- **Ghost bookkeeping.** Each iterator also keeps two ghost records:
  - what every stack entry still owes (`pending`, or `frames` for post-order);
  - the nodes it has already yielded (`emitted`).
- **Iterator invariant.** Yielded nodes followed by owed nodes equal the full reference traversal. Every `MoveNext` is proved against this invariant: it yields exactly the next node of the traversal, and answers `false` exactly when nothing is left.
- **The common interface.** `IEnumerator<T>` is the datatype `Enumerator`, which dispatches to the three iterator classes. `Enumerators.ForEach` is the loop a C# `foreach` runs.

`Previous` is modelled as the code is written. `PostOrderIterators.PreviousTarget` transcribes its case analysis, and the method is proved to move `current` exactly there. The model claims no "step back in post-order" law for it, because none holds:

- whenever `Previous` moves, it moves to the next node in **in-order** (`PreviousFollowsInOrder`);
- on the demonstration tree, `DemoPrevious` shows it moving from 5 to 6 and from 2 to 3;
- right after a full post-order run, `current` is empty, so the walk backwards shown in `Program.cs` stops at once (`DemoBackwards`).

## Model

All source paths are relative to the repository root.

| member | source | states |
|---|---|---|
| BinaryTrees.BinaryTree.constructor | Lambda/Lambda/BinaryTree.cs:20 | A new tree has no root and an empty arena, and is well-formed. |
| BinaryTrees.BinaryTree.Add | Lambda/Lambda/BinaryTree.cs:22-31 | An empty tree gets its first node as root. Otherwise the root stays and the arena and shape are those of the recursive graft. Exactly one empty child slot of a tree node is filled. The tree stays well-formed and grows by one node, and the multiset of in-order values gains exactly `v`. |
| BinaryTrees.BinaryTree.AddRecursive | Lambda/Lambda/BinaryTree.cs:33-57 | Walking down from a node gives exactly the arena `Grafted` describes. |
| Insertion.InsertShape | Lambda/Lambda/BinaryTree.cs:35-56 | The shape after an insertion has the old node set plus the new index, one more node, and the same root. |
| Insertion.Grafted | Lambda/Lambda/BinaryTree.cs:33-57 | The arena grows by one node. Nodes off the tree are untouched. Every old value and Parent link is kept. The new last node holds `v` and has no children. |
| Insertion.GraftFillsOneSlot | Lambda/Lambda/BinaryTree.cs:35-56 | Some node of the tree had an empty slot on the side the comparison picks (less goes left, equal or more goes right). That slot now points at the new last node, whose Parent is that node. Nothing else changes. |
| Insertion.GraftKeepsLinks | Lambda/Lambda/BinaryTree.cs:39-50 | After a graft the child links still follow the new shape, the Parent links are still right, and no index repeats. |
| Insertion.InsertKeepsOrder | Lambda/Lambda/BinaryTree.cs:35-56 | Inserting keeps search order: strictly smaller values on the left, equal and larger on the right. |
| Insertion.InsertAddsValue | Lambda/Lambda/BinaryTree.cs:22-57 | The multiset of in-order values gains exactly the inserted value. |
| Insertion.AddKeepsWellFormed | Lambda/Lambda/BinaryTree.cs:22-57 | Insertion into a well-formed tree yields a well-formed tree. |
| Traversals.OrdersArePermutations | Lambda/Lambda/BinaryTree.cs:60-233 | The three traversals have the tree's size as length, are permutations of each other, and contain exactly the tree's nodes. |
| Traversals.EachNodeExactlyOnce | Lambda/Lambda/BinaryTree.cs:60-233 | In a tree without repeated nodes, every traversal visits each node exactly once. |
| Traversals.InOrderSorted | Lambda/Lambda/BinaryTree.cs:263-276 | The in-order values of a search-ordered tree are non-decreasing. |
| PreOrderIterators.PreOrderIterator.constructor | Lambda/Lambda/BinaryTree.cs:66-71 | The stack holds only the root, or is empty for an empty tree. What remains is the whole pre-order. |
| PreOrderIterators.PreOrderIterator.Current | Lambda/Lambda/BinaryTree.cs:73 | The value of the node yielded last. |
| PreOrderIterators.PreOrderIterator.MoveNext | Lambda/Lambda/BinaryTree.cs:79-92 | The result is true exactly when the stack was non-empty, which is exactly when pre-order nodes remain. On true, it pops the top, yields it as the next pre-order node, and pushes the Right and then the Left child. On false, `current` becomes empty. |
| PreOrderIterators.PreOrderIterator.Reset | Lambda/Lambda/BinaryTree.cs:94-99 | Back to the initial state: the whole pre-order remains. |
| InOrderIterators.InOrderIterator.constructor | Lambda/Lambda/BinaryTree.cs:192-197 | The stack is the root's Left chain, deepest node on top. What remains is the whole in-order. |
| InOrderIterators.InOrderIterator.PushLeftNodes | Lambda/Lambda/BinaryTree.cs:199-206 | Pushes the node's Left chain onto the stack. The nodes owed grow by that subtree's in-order, placed in front. |
| InOrderIterators.InOrderIterator.Current | Lambda/Lambda/BinaryTree.cs:208 | The value of the node yielded last. |
| InOrderIterators.InOrderIterator.MoveNext | Lambda/Lambda/BinaryTree.cs:214-225 | The result is true exactly when in-order nodes remain. On true, it yields the next in-order node and replaces the top with the Left chain of its Right child. On false, `current` becomes empty. |
| InOrderIterators.InOrderIterator.Reset | Lambda/Lambda/BinaryTree.cs:227-232 | Back to the initial state: the whole in-order remains. |
| PostOrderIterators.PostOrderIterator.constructor | Lambda/Lambda/BinaryTree.cs:110-116 | The stack holds only the root, and `visited` is empty. What remains is the whole post-order. |
| PostOrderIterators.PostOrderIterator.Current | Lambda/Lambda/BinaryTree.cs:118 | A value of the tree. Only membership is stated, because `Previous` can move `current` off the last yielded node. |
| PostOrderIterators.PostOrderIterator.MoveNext | Lambda/Lambda/BinaryTree.cs:124-143 | The result is true exactly when post-order nodes remain. On true, `current` is the next post-order node, which is now in `visited`, and it is removed from what remains. On false, the stack is empty and `current` becomes empty. `visited` only grows. |
| PostOrderIterators.PostOrderIterator.Reset | Lambda/Lambda/BinaryTree.cs:145-151 | Back to the initial state: empty `visited`, and the whole post-order remains. |
| PostOrderIterators.PostOrderIterator.Previous | Lambda/Lambda/BinaryTree.cs:153-182 | With no `current`, it answers false. Otherwise `current` becomes `PreviousTarget` of the old `current`, and the answer says whether that is a node. Stack and `visited` are unchanged. |
| PostOrderIterators.PreviousTarget | Lambda/Lambda/BinaryTree.cs:155-181 | Previous's case analysis on the links. Any node it names is a node of the tree. |
| PostOrderIterators.PreviousFollowsInOrder | Lambda/Lambda/BinaryTree.cs:153-182 | Whenever Previous moves from `c`, it moves to the node right after `c` in in-order. |
| Enumerators.Enumerator.MoveNext | Lambda/Lambda/BinaryTree.cs:281 | Through the enumerator interface, any of the three iterators yields the value of the next remaining node, or answers false with nothing left. |
| Enumerators.Enumerator.Reset | Lambda/Lambda/BinaryTree.cs:286 | Through the interface, the iterator returns to its initial state with its whole traversal remaining. |
| Enumerators.IterableWrapper.constructor | Lambda/Lambda/BinaryTree.cs:283-287 | The wrapper keeps the enumerator it is given and resets it. |
| Enumerators.IterableWrapper.GetEnumerator | Lambda/Lambda/BinaryTree.cs:289-292 | Always the same enumerator, never a fresh one. |
| Enumerators.ForEach | Program.cs:20-23 | A `foreach` collects the values of exactly the nodes the enumerator still had to yield, in order, and leaves it exhausted. |
| BinaryTrees.BinaryTree.InOrderLambda | Lambda/Lambda/BinaryTree.cs:263-268 | The list is the tree's in-order values, in non-decreasing order. |
| BinaryTrees.BinaryTree.InOrderLambdaInto | Lambda/Lambda/BinaryTree.cs:270-276 | Appends exactly the subtree's in-order values to the list. |
| BinaryTrees.BinaryTree.GetEnumerator | Lambda/Lambda/BinaryTree.cs:236-239 | A fresh in-order iterator in its initial state over this tree. |
| BinaryTrees.BinaryTree.PreOrderTraversal | Lambda/Lambda/BinaryTree.cs:247-250 | A fresh wrapper around a fresh, reset pre-order iterator over this tree. |
| BinaryTrees.BinaryTree.PostOrderTraversal | Lambda/Lambda/BinaryTree.cs:252-255 | A fresh wrapper around a fresh, reset post-order iterator over this tree. |
| BinaryTrees.BinaryTree.InOrderTraversal | Lambda/Lambda/BinaryTree.cs:257-260 | A fresh wrapper around a fresh, reset in-order iterator over this tree. |
| Clients.PreOrderReplaysOnce | Lambda/Lambda/BinaryTree.cs:279-298 | Enumerating a pre-order traversal object yields the pre-order values the first time and nothing the second time. |
| Clients.InOrderReplaysOnce | Lambda/Lambda/BinaryTree.cs:279-298 | The same for the in-order traversal object. |
| Clients.PostOrderReplaysOnce | Lambda/Lambda/BinaryTree.cs:279-298 | The same for the post-order traversal object. |
| Clients.InOrderViewsAgree | Lambda/Lambda/BinaryTree.cs:236-276 | `InOrderLambda`, the default enumerator and `InOrderTraversal` give the same, non-decreasing sequence of values. |
| Clients.TraversalsCoverArena | Lambda/Lambda/BinaryTree.cs:60-233 | In a well-formed tree, each traversal visits every arena node exactly once. |
| Clients.DemoStep | Program.cs:11-17 | Each successive insertion of 5, 3, 7, 2, 4, 6, 8 turns the tree after `k` insertions into the tree after `k + 1`. |
| Clients.BuildDemo | Program.cs:11-17 | The seven insertions build the demonstration arena and shape. |
| Clients.DemoTraversals | Program.cs:19-45 | The demonstration tree's values:<br>in-order 2 3 4 5 6 7 8;<br>pre-order 5 3 2 4 7 6 8;<br>post-order 2 4 3 6 8 7 5. |
| Clients.DemoOutput | Program.cs:19-45 | The four traversals the demonstration enumerates give exactly those sequences. |
| Clients.DemoPrevious | Program.cs:48-58 | On the demonstration tree, Previous moves from 5 to 6 and from 2 to 3, where post-order has 7 before 5 and nothing before 2. |
| Clients.DemoBackwards | Program.cs:48-58 | A full post-order run yields 2 4 3 6 8 7 5, and the backward walk after it moves no step. |

## Left out

- Mutating the tree while an iterator is live. Iterators take a snapshot of the arena and root as constants, so a tree changed under a running enumerator is not modelled.
- `Dispose` and the non-generic `IEnumerator.Current` and `IEnumerable.GetEnumerator` forwarders. They have no behaviour of their own.
- The `Root` property (`BinaryTree.cs:301`). It is the field `root` of `BinaryTrees.BinaryTree`, read directly.
- Genericity and `IComparable<T>.CompareTo`. Values are `int` and the comparison is `<`. C# integer comparison does not overflow, so nothing is lost.
- `HashSet<Node>` and reference identity. Nodes are compared by arena index, and `visited` is a `set<nat>`.
- `Stack<Node>` and `List<T>` internals. They appear as sequences, with growth and capacity not modelled.
- Reading `Current` when `current` is null, which raises an exception in C#. The model requires a current node instead.
- Garbage collection and concurrency.
- The console output of `Program.cs`. It is modelled only by the sequences of values it writes.
- PostOrderIterators.PostOrderIterator.Current: states only that the value belongs to the tree, not that it is the last value `MoveNext` yielded. `Previous` may have moved `current` since.
- PostOrderIterators.PostOrderIterator.Previous: there is no law relating it to post-order, because the code does not step back in post-order. What it does is stated as the code's case analysis (`PreviousTarget`), plus its in-order reading (`PreviousFollowsInOrder`).
- Shapes.Values: an index outside the arena reads as 0. That can only happen for trees that are not well-formed, which no contract here admits.
