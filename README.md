# Scapegoat tree

A model of the scapegoat tree of the C# data-structures collection: an ordered set of
integer keys kept in a binary search tree that stores no balance data in its nodes. It
has two layers.

- **Algorithm layer** (`ScapegoatTreeImplementation<T>`, module `Implementation`):
  - search;
  - insertion that records the ancestor path on a stack;
  - deletion, where a node with two children is replaced by its in-order predecessor;
  - scapegoat discovery on the insertion path;
  - flattening a subtree into an in-order list;
  - rebuilding a sorted list into a balanced subtree.
- **Controller** (`ScapegoatTree<T>`, module `Controller`):
  - a class owning `Root`, `Size`, `MaxSize` (the high-water mark since the last full
    rebuild) and `Alpha`;
  - `Insert`, `Delete`, `Search`, `Contains`, `Tune`, `Clear` and
    `IsAlphaWeightBalanced`.
  - After each insertion or deletion it decides whether to raise `TreeIsUnbalanced` and
    rebuild.

Files:

- `wrappers.dfy`: `Option`, `Result` and `Outcome`. `Error` stands for the two exception
  kinds, ArgumentException and InvalidOperationException with its message.
- `node.dfy` (module `Trees`): the `Tree` datatype and its measures:
  - `Size` (`Node.GetSize`), `Keys`, `InOrder` (the node enumerator) and `Height`;
  - the search-tree order `IsBST`;
  - the balance test `WeightBalanced` (`Node.IsAlphaWeightBalanced`);
  - the general lemmas about them.
- `implementation.dfy` (module `Implementation`): the algorithm layer.
- `controller.dfy` (module `Controller`): the controller class.
  - The insertion and deletion policies are stated as functions: `InsertPolicy` and
    `DeletePolicy`. The methods are proved against them.
  - The notification is a ghost counter, `notifications`.
- `scenarios.dfy` (module `Scenarios`): the concrete trees and outcomes the unit tests
  pin down, each proved about the model.

Choices made where the tests leave room, and choices the tests force:

- **Scapegoat rule (chosen: the standard depth rule).** A scapegoat is an ancestor
  whose subtree size `s`, at depth `d` above the new node, fails the bound
  `s * alpha^d >= 1`. The stack is popped innermost first, so the first failure found
  is chosen.
  - With alpha 0.57 and the insertion of 29, the tests expect 8.
  - A rule that picks the weight violator nearest the new node would pick 13.
    `Scenarios.TwoViolatorsFixture57` proves that 13 also violates the weight test.
  - A rule that picks the weight violator nearest the root agrees with every tested
    case but differs elsewhere. Take root 40 over the left chain 30, 20, insert 10 with
    alpha 1/2: both 40 and 30 violate the weight test, and the depth rule picks 30
    (`Scenarios.DepthRuleSkipsRootViolator`).
  - `ScapegoatIsUnbalanced` proves that the chosen ancestor always violates the weight
    test.
- **Alpha range.** The range is `[0.5, 1.0]`. Alpha 0.5 is the default and is accepted.
- **Rebuild shape.** The rebuild takes the upper middle element (index
  `(start + end + 1) / 2`) as the root. On `[-1, 1, 2, 3, 5, 6]` this gives root 3 with
  left child 1, as `RebuildWithRoot` is expected to produce. The hand-linked chain in the
  `RebuildFromList` test is compared by enumeration, so only its in-order keys are
  modelled.
- **Deletion trigger.** Deleting the root's key always raises the event, rebuilds the
  whole tree and resets `MaxSize` to `Size`.
  - The tests need this for the chain at `ScapegoatTreeTests.cs:479-498`, where 6 keys
    out of a maximum of 7 exceed 0.5 · 7.
  - Any other deletion rebuilds when `Size <= alpha * MaxSize`.
  - Deleting the last key leaves an empty tree with `MaxSize` 0.
- **Node arguments.** The tests build nodes as `new Node(key, right, left)`. The model's
  `Node(left, key, right)` is written left to right.

## Model

| member | source | states |
|---|---|---|
| Trees.Size | DataStructures.Tests/ScapegoatTree/ScapegoatTreeImplementationTests.cs:126-145 | `GetSize` counts the nodes of a subtree; it is zero exactly for the empty tree |
| Trees.WeightBalancedEverywhere | DataStructures.Tests/ScapegoatTree/ScapegoatTreeImplementationTests.cs:379-398 | `IsAlphaWeightBalanced` holds exactly when every subtree passes the local test (each child at most alpha times its parent's size) |
| Trees.InOrderFacts | DataStructures.Tests/ScapegoatTree/ScapegoatTreeImplementationTests.cs:312-335 | the enumeration yields as many keys as the tree has nodes, and exactly the tree's keys |
| Trees.BSTIffSorted | DataStructures.Tests/ScapegoatTree/ScapegoatTreeImplementationTests.cs:312-335 | a tree is in search-tree order exactly when its enumeration is strictly increasing |
| Trees.SortedSplit | DataStructures.Tests/ScapegoatTree/ScapegoatTreeImplementationTests.cs:312-335 | a sequence `a + [k] + b` is strictly increasing iff both parts are and k separates them |
| Trees.SizeIsKeyCount | DataStructures.Tests/ScapegoatTree/ScapegoatTreeTests.cs:298-308 | in a search tree the node count equals the number of distinct keys, so `Size` counts keys |
| Trees.WeightBalancedMonotone | DataStructures.Tests/ScapegoatTree/ScapegoatTreeTests.cs:425-435 | a tree balanced for alpha stays balanced for every larger alpha, so `Tune` upward keeps the balance |
| Trees.HeightAtLeastBitLength | DataStructures.Tests/ScapegoatTree/ScapegoatTreeImplementationTests.cs:379-398 | no tree of n nodes is lower than the bit length of n (a complete tree's height) |
| Implementation.Find | DataStructures.Tests/ScapegoatTree/ScapegoatTreeImplementationTests.cs:14-66 | the search result, when not null, holds the key and is a subtree of the root |
| Implementation.FindInSearchTree | DataStructures.Tests/ScapegoatTree/ScapegoatTreeImplementationTests.cs:14-66 | in a search tree the search finds a node exactly when the key is present |
| Implementation.SearchWithRoot | DataStructures.Tests/ScapegoatTree/ScapegoatTreeImplementationTests.cs:14-66 | the descent loop returns the very node holding the key (left or right child) or null, and in a search tree it finds the key iff present |
| Implementation.TryInsertWithRoot | DataStructures.Tests/ScapegoatTree/ScapegoatTreeImplementationTests.cs:220-261 | returns true exactly when the key is absent; a duplicate leaves the tree unchanged; a success adds one node |
| Implementation.InsertKeepsOrder | DataStructures.Tests/ScapegoatTree/ScapegoatTreeImplementationTests.cs:220-246 | insertion into a search tree adds exactly the key and keeps the search-tree order |
| Implementation.InsertionPath | DataStructures.Tests/ScapegoatTree/ScapegoatTreeImplementationTests.cs:220-261 | the path starts at the root and descends child by child, the new leaf hangs below its last entry and is not pushed, and a duplicate leaves the matching node on top |
| Implementation.PathWithinHeight | DataStructures.Tests/ScapegoatTree/ScapegoatTreeImplementationTests.cs:220-261 | the ancestor path is never longer than the tree's height |
| Implementation.DepthBoundMonotone | DataStructures.Tests/ScapegoatTree/ScapegoatTreeTests.cs:310-327 | once a count fails the depth bound at some depth it fails it at every greater depth |
| Implementation.ScapegoatIndexBelow | DataStructures.Tests/ScapegoatTree/ScapegoatTreeImplementationTests.cs:271-289 | the chosen ancestor fails the depth bound and every ancestor popped before it passes; none found means all pass |
| Implementation.FindScapegoatInPath | DataStructures.Tests/ScapegoatTree/ScapegoatTreeImplementationTests.cs:263-310 | the popping loop throws ArgumentException on an empty path and InvalidOperationException with its message when no ancestor fails the bound; otherwise it returns the first failing ancestor popped and its parent |
| Implementation.ScapegoatIsUnbalanced | DataStructures.Tests/ScapegoatTree/ScapegoatTreeImplementationTests.cs:271-289 | the scapegoat chosen on an insertion path is out of alpha-weight balance |
| Implementation.DepthBoundGuaranteesScapegoat | DataStructures.Tests/ScapegoatTree/ScapegoatTreeImplementationTests.cs:271-289 | when the new node is deeper than the bound for maxSize, a scapegoat exists on the path |
| Implementation.MaxKey | DataStructures.Tests/ScapegoatTree/ScapegoatTreeImplementationTests.cs:168-218 | the right-most key is a key of the subtree and, in a search tree, its largest |
| Implementation.RemoveMax | DataStructures.Tests/ScapegoatTree/ScapegoatTreeImplementationTests.cs:168-218 | unlinking the predecessor removes one node and exactly that key, and keeps the order |
| Implementation.TryDeleteWithRoot | DataStructures.Tests/ScapegoatTree/ScapegoatTreeImplementationTests.cs:68-218 | returns true exactly when the key is found; otherwise the tree is unchanged; a success removes one node |
| Implementation.DeleteKeepsOrder | DataStructures.Tests/ScapegoatTree/ScapegoatTreeImplementationTests.cs:68-218 | deletion from a search tree removes exactly the key, reports whether it was present, and keeps the order |
| Implementation.PredecessorKeepsOrder | DataStructures.Tests/ScapegoatTree/ScapegoatTreeImplementationTests.cs:168-218 | copying in the in-order predecessor removes exactly the deleted key and keeps the order |
| Implementation.FlattenTree | DataStructures.Tests/ScapegoatTree/ScapegoatTreeImplementationTests.cs:312-335 | appends the subtree's keys in enumeration order, one per node, sorted when the subtree is a search tree |
| Implementation.Rebuild | DataStructures.Tests/ScapegoatTree/ScapegoatTreeImplementationTests.cs:337-371 | the rebuilt tree enumerates exactly the list and has one node per element |
| Implementation.RebuildFromList | DataStructures.Tests/ScapegoatTree/ScapegoatTreeImplementationTests.cs:337-377 | a range with start > end is an ArgumentException; otherwise the result enumerates exactly the range |
| Implementation.RebuildShape | DataStructures.Tests/ScapegoatTree/ScapegoatTreeImplementationTests.cs:379-398 | the rebuilt tree is 1/2-weight-balanced and as low as a complete tree |
| Implementation.RebalancedProperties | DataStructures.Tests/ScapegoatTree/ScapegoatTreeImplementationTests.cs:379-398 | a rebuild keeps size, keys and order, is balanced for every alpha from 1/2, and no tree of that size is lower |
| Implementation.SameInOrder | DataStructures.Tests/ScapegoatTree/ScapegoatTreeImplementationTests.cs:337-371 | trees with the same enumeration have the same keys and size and are search trees together |
| Implementation.RebuildWithRoot | DataStructures.Tests/ScapegoatTree/ScapegoatTreeImplementationTests.cs:379-398 | flatten then rebuild keeps the enumeration, gives a 1/2-weight-balanced tree of least height |
| Implementation.ReplaceAt | DataStructures.Tests/ScapegoatTree/ScapegoatTreeTests.cs:354-375 | splicing a subtree with the same enumeration into the scapegoat's slot keeps the whole tree's enumeration |
| Implementation.ReplaceAtFrame | DataStructures.Tests/ScapegoatTree/ScapegoatTreeTests.cs:354-375 | repointing the scapegoat's slot leaves every node above it with its key and its other child |
| Implementation.InsertionPathPositions | DataStructures.Tests/ScapegoatTree/ScapegoatTreeImplementationTests.cs:271-289 | the j-th entry of the path is the subtree j steps down the descent towards the new key |
| Controller.InsertPolicy | DataStructures.Tests/ScapegoatTree/ScapegoatTreeTests.cs:310-375 | the tree after an insertion enumerates the same keys as the plain insertion's tree |
| Controller.InsertPolicyFrame | DataStructures.Tests/ScapegoatTree/ScapegoatTreeTests.cs:310-327 | a too-deep insertion puts the scapegoat's rebuild in its slot and changes nothing else: each ancestor above keeps its key and the subtree the descent leaves aside, and the tree keeps the plain insertion's keys and node count |
| Controller.InsertPolicyKeys | DataStructures.Tests/ScapegoatTree/ScapegoatTreeTests.cs:298-308 | an insertion adds one node and exactly the key when new, and keeps the order |
| Controller.InsertQuietWhenShallow | DataStructures.Tests/ScapegoatTree/ScapegoatTreeTests.cs:354-375 | an insertion raises nothing when a node below the current height would still pass the bound |
| Controller.InsertRebuildsScapegoat | DataStructures.Tests/ScapegoatTree/ScapegoatTreeTests.cs:354-375 | a too-deep insertion finds an unbalanced scapegoat and leaves in its slot a balanced subtree of least height with the same keys |
| Controller.DeletePolicy | DataStructures.Tests/ScapegoatTree/ScapegoatTreeTests.cs:329-352 | the tree after a deletion enumerates the same keys as the plain deletion's tree |
| Controller.DeletePolicyKeys | DataStructures.Tests/ScapegoatTree/ScapegoatTreeTests.cs:218-296 | a deletion removes one node and exactly the key when present, keeps the order, and a rebuild leaves the tree balanced |
| Controller.ScapegoatTree.constructor | DataStructures.Tests/ScapegoatTree/ScapegoatTreeTests.cs:10-21 | no root, Size 0, MaxSize 0, Alpha 0.5 |
| Controller.ScapegoatTree.WithKey | DataStructures.Tests/ScapegoatTree/ScapegoatTreeTests.cs:48-62 | the key is the root, Size = MaxSize = 1, Alpha 0.5 |
| Controller.ScapegoatTree.FromRoot | DataStructures.Tests/ScapegoatTree/ScapegoatTreeTests.cs:112-127 | the node becomes the root; Size and MaxSize are its subtree size |
| Controller.ScapegoatTree.Create | DataStructures.Tests/ScapegoatTree/ScapegoatTreeTests.cs:23-46 | an alpha outside [0.5, 1] is an ArgumentException; otherwise a valid tree with that alpha |
| Controller.ScapegoatTree.Search | DataStructures.Tests/ScapegoatTree/ScapegoatTreeTests.cs:139-168 | null on an empty tree or an absent key, the node holding the key otherwise |
| Controller.ScapegoatTree.Contains | DataStructures.Tests/ScapegoatTree/ScapegoatTreeTests.cs:377-411 | true exactly when the search finds the key, i.e. the key is present in a search tree |
| Controller.ScapegoatTree.IsAlphaWeightBalanced | DataStructures.Tests/ScapegoatTree/ScapegoatTreeTests.cs:129-137 | an empty tree is balanced; otherwise every subtree passes the test with the current alpha |
| Controller.ScapegoatTree.Tune | DataStructures.Tests/ScapegoatTree/ScapegoatTreeTests.cs:425-445 | a valid alpha is stored; an invalid one is an ArgumentException and changes nothing |
| Controller.ScapegoatTree.Clear | DataStructures.Tests/ScapegoatTree/ScapegoatTreeTests.cs:413-423 | no root, Size 0, MaxSize 0 |
| Controller.ScapegoatTree.Insert | DataStructures.Tests/ScapegoatTree/ScapegoatTreeTests.cs:170-216 | true exactly for a new key; Size and MaxSize follow; the event is raised exactly when the new node is too deep; the root is the policy's tree, with exactly the key added |
| Controller.ScapegoatTree.Delete | DataStructures.Tests/ScapegoatTree/ScapegoatTreeTests.cs:184-296 | false on an empty tree or a missing key; Size drops by one on success; a rebuild raises the event, balances the tree and sets MaxSize to Size; exactly the key is removed |
| Scenarios.SearchFixtures | DataStructures.Tests/ScapegoatTree/ScapegoatTreeImplementationTests.cs:14-66 | the search returns the left or right child holding the key, and null for an absent key |
| Scenarios.InsertFixtures | DataStructures.Tests/ScapegoatTree/ScapegoatTreeImplementationTests.cs:220-261 | smaller key left, larger right, duplicate refused, each with the root alone on the path |
| Scenarios.DeleteLeftLeafFixture | DataStructures.Tests/ScapegoatTree/ScapegoatTreeImplementationTests.cs:68-81 | deleting the left leaf empties the left slot |
| Scenarios.DeleteRightLeafFixture | DataStructures.Tests/ScapegoatTree/ScapegoatTreeImplementationTests.cs:97-110 | deleting the right leaf empties the right slot |
| Scenarios.DeleteAbsentFixture | DataStructures.Tests/ScapegoatTree/ScapegoatTreeImplementationTests.cs:83-124 | absent keys on either side are not deleted |
| Scenarios.DeleteOneChildFixtures | DataStructures.Tests/ScapegoatTree/ScapegoatTreeImplementationTests.cs:126-166 | the only child takes the deleted node's place |
| Scenarios.DeleteTwoChildrenFixture | DataStructures.Tests/ScapegoatTree/ScapegoatTreeImplementationTests.cs:168-192 | deleting 1 copies in 0 |
| Scenarios.DeleteTwoChildrenRightFixture | DataStructures.Tests/ScapegoatTree/ScapegoatTreeImplementationTests.cs:194-218 | deleting 10 copies in 9 |
| Scenarios.Unbalanced57Built | DataStructures.Tests/ScapegoatTree/ScapegoatTreeImplementationTests.cs:271-289 | inserting 1, 13, 10, 20, 19, 22 under 8 gives the first fixture tree |
| Scenarios.SmallBuilt | DataStructures.Tests/ScapegoatTree/ScapegoatTreeImplementationTests.cs:271-289 | inserting 2, 1, 5, 6 under 3 gives the second fixture tree |
| Scenarios.Balanced57Built | DataStructures.Tests/ScapegoatTree/ScapegoatTreeImplementationTests.cs:291-310 | inserting 10, 8, 13, 1, 22, 20 under 19 gives the balanced fixture tree |
| Scenarios.PathOf29 | DataStructures.Tests/ScapegoatTree/ScapegoatTreeImplementationTests.cs:271-289 | the ancestors of 29 are 8, 13, 20, 22 |
| Scenarios.DepthBounds57 | DataStructures.Tests/ScapegoatTree/ScapegoatTreeImplementationTests.cs:271-289 | for alpha 0.57, sizes 2, 4, 6 pass at depths 1, 2, 3 and size 8 fails at depth 4 |
| Scenarios.ScapegoatFixture57 | DataStructures.Tests/ScapegoatTree/ScapegoatTreeImplementationTests.cs:271-289 | the scapegoat of the insertion of 29 is 8, the root |
| Scenarios.TwoViolatorsFixture57 | DataStructures.Tests/ScapegoatTree/ScapegoatTreeImplementationTests.cs:271-289 | both 8 and 13 are out of 0.57-weight balance |
| Scenarios.DepthRuleSkipsRootViolator | DataStructures.Tests/ScapegoatTree/ScapegoatTreeImplementationTests.cs:271-289 | inserting 10 below 40 over 30 over 20 is too deep for alpha 1/2; 40 and 30 both violate the weight test, and the scapegoat is 30 |
| Scenarios.NoScapegoatFixture57 | DataStructures.Tests/ScapegoatTree/ScapegoatTreeImplementationTests.cs:291-310 | on the balanced tree no ancestor of 29 fails the bound |
| Scenarios.NoScapegoatFixtureHalf | DataStructures.Tests/ScapegoatTree/ScapegoatTreeImplementationTests.cs:291-310 | inserting 6 last under root 3 with alpha 1/2 leaves no ancestor failing the bound |
| Scenarios.ScapegoatOfMinusOne | DataStructures.Tests/ScapegoatTree/ScapegoatTreeImplementationTests.cs:271-289 | the scapegoat of the insertion of -1 is 2 |
| Scenarios.RebuildFixture | DataStructures.Tests/ScapegoatTree/ScapegoatTreeImplementationTests.cs:337-371 | rebuilding [-1, 1, 2, 3, 5, 6] gives root 3 over 1 and 6 |
| Scenarios.RebuildWithRootFixture | DataStructures.Tests/ScapegoatTree/ScapegoatTreeImplementationTests.cs:379-398 | the left-leaning six-node tree is rebuilt with root 3 and left child 1 |
| Scenarios.RebuildWithRootBalances | DataStructures.Tests/ScapegoatTree/ScapegoatTreeImplementationTests.cs:379-398 | the tree is not 1/2-balanced before the rebuild and is after |
| Scenarios.EmptyRangeFixture | DataStructures.Tests/ScapegoatTree/ScapegoatTreeImplementationTests.cs:373-377 | a range with start > end is an ArgumentException |
| Scenarios.QuietInsertTwo | DataStructures.Tests/ScapegoatTree/ScapegoatTreeTests.cs:310-327 | inserting 2 under root 3 raises nothing |
| Scenarios.QuietInsertFive | DataStructures.Tests/ScapegoatTree/ScapegoatTreeTests.cs:310-327 | then inserting 5 raises nothing |
| Scenarios.QuietInsertOne | DataStructures.Tests/ScapegoatTree/ScapegoatTreeTests.cs:310-327 | then inserting 1 raises nothing |
| Scenarios.QuietInsertSix | DataStructures.Tests/ScapegoatTree/ScapegoatTreeTests.cs:310-327 | then inserting 6 raises nothing and gives the five-key tree |
| Scenarios.DeepInsertMinusOne | DataStructures.Tests/ScapegoatTree/ScapegoatTreeTests.cs:310-327 | inserting -1 next is too deep: the event is raised |
| Scenarios.DeepInsertSeven | DataStructures.Tests/ScapegoatTree/ScapegoatTreeTests.cs:354-375 | inserting 7 instead is too deep as well |
| Scenarios.ScapegoatOfSeven | DataStructures.Tests/ScapegoatTree/ScapegoatTreeTests.cs:354-375 | the scapegoat of the insertion of 7 is 5 |
| Scenarios.DeepInsertMinusOneRebuilds | DataStructures.Tests/ScapegoatTree/ScapegoatTreeTests.cs:354-375 | after inserting -1 the subtree of 2 is rebuilt into 1 over -1 and 2 |
| Scenarios.DeepInsertSevenRebuilds | DataStructures.Tests/ScapegoatTree/ScapegoatTreeTests.cs:354-375 | after inserting 7 the subtree of 5 is rebuilt into 6 over 5 and 7 |
| Scenarios.DeepInsertMinusOneBalances | DataStructures.Tests/ScapegoatTree/ScapegoatTreeTests.cs:354-375 | the tree after inserting -1 is 1/2-weight-balanced |
| Scenarios.DeepInsertSevenBalances | DataStructures.Tests/ScapegoatTree/ScapegoatTreeTests.cs:354-375 | the tree after inserting 7 is 1/2-weight-balanced |
| Scenarios.QuietGrowth | DataStructures.Tests/ScapegoatTree/ScapegoatTreeTests.cs:329-343 | inserting 10, 30, 5, 11, 29, 40, 50, 1, 12 under root 20 with alpha 0.7 never raises the event, each key becoming a leaf |
| Scenarios.QuietAscentUnbalances | DataStructures.Tests/ScapegoatTree/ScapegoatTreeTests.cs:329-343 | inserting 20, 30, 40 after 10 with alpha 0.7 never raises the event, and the last insertion turns a 0.7-balanced tree into one that is not |
| Scenarios.ShrinkScenario | DataStructures.Tests/ScapegoatTree/ScapegoatTreeTests.cs:329-352 | from those ten keys, deleting 50 and 40 raises nothing and deleting 30 raises the event |
| Scenarios.ChainRootDeletion | DataStructures.Tests/ScapegoatTree/ScapegoatTreeTests.cs:479-498 | deleting root 3 of the chain copies in 2 and leaves 6 of 7 nodes |
| Scenarios.ChainRootDeleteRebuilds | DataStructures.Tests/ScapegoatTree/ScapegoatTreeTests.cs:479-498 | that deletion raises the event and rebuilds, so MaxSize becomes Size |

## Left out

- The `TreeIsUnbalanced` event and the handlers that observe it are a ghost counter,
  `notifications`, raised once per rebuild.
- Enumeration (`GetEnumerator`, the non-generic `IEnumerable`) is the pure `InOrder`
  sequence.
- The pluggable algorithm object (`Base`, a caller-supplied implementation) is left out.
  Only the default implementation is modelled.
- Floating point: alpha is a `real`. The depth test "depth > log(MaxSize) / log(1/alpha)"
  is stated exactly as `MaxSize * alpha^depth < 1`, so rounding at equality is not
  modelled.
- Node identity is not modelled. Nodes are values, so in-place relinking, aliasing
  between the path stack and the tree, and the reuse of node objects by the rebuild are
  not captured. Each operation returns the tree as it is after the relinking.
  `FindScapegoatInPath` takes the path by value: the popping that leaves the caller's
  stack emptied down to the scapegoat's parent is not modelled. It returns the pair
  (parent, scapegoat), and the tests use only the scapegoat.
- `FlattenTree`: the list holds keys, not node objects.
- `TryInsertWithRoot` and `TryDeleteWithRoot` are functions that return the new tree.
  `TryInsertWithRoot` also returns the path, as a sequence with the root first.
- Keys are `int`, not generic `IComparable` values.
- FindScapegoatInPath: the chosen scapegoat is the first ancestor, popped from the new
  node upwards, that fails the depth bound. The tests do not decide between this and
  the weight violator nearest the root. The two differ on root 40 over the left chain
  30, 20 when 10 is inserted (`Scenarios.DepthRuleSkipsRootViolator`).
- Controller.InsertPolicy: the tree is not kept alpha-weight-balanced after every
  operation. Balance is guaranteed only for the rebuilt subtree
  (`Controller.InsertRebuildsScapegoat`) and after a full rebuild on deletion
  (`Controller.DeletePolicyKeys`). A quiet insertion can unbalance the tree: inserting
  10, 20, 30, 40 with alpha 0.7 leaves a chain that is not 0.7-balanced
  (`Scenarios.QuietAscentUnbalances`).
- Amortized running time is not modelled.
- The implementation files `ScapegoatTree.cs`, `ScapegoatTreeImplementation.cs` and
  `Node.cs` are not part of this model. Behaviour comes from what the unit tests assert.
  - The delete trigger beyond the tested cases is one consistent choice.
  - `RebuildFromList` requires an in-range `start` and `end` unless `start > end`. The
    tests show only the `start > end` error.
- Controller.ScapegoatTree.Insert, Controller.ScapegoatTree.Delete: the controller
  scenarios are proved about `InsertPolicy` and `DeleteRebuilds`, which the methods are
  proved to follow, rather than as runs of the methods.
- Controller.ScapegoatTree.Valid: the invariant does not include the search-tree order,
  because `FromRoot` adopts an arbitrary node. The order results are stated as
  implications from an ordered tree.
