/** The algorithm layer of the scapegoat tree (`ScapegoatTreeImplementation<T>`):
    search, insertion that records the ancestor path, deletion by predecessor
    promotion, scapegoat discovery on that path, and the flatten/rebuild pair.
    Nodes are values here: an operation that relinks nodes in place returns the
    tree as it is after the relinking. */
module Implementation {
  import opened Wrappers
  import opened Trees

  const NoScapegoatMessage := "Scapegoat node wasn't found. The tree should be unbalanced."

  // ---------------------------------------------------------------- search

  /** The node a search-tree descent for `key` stops at, or Nil when it falls off. */
  function Find(t: Tree, key: int): (r: Tree)
    ensures r.Node? ==> r.key == key && key in Keys(t) && SubtreeOf(r, t)
  {
    match t
    case Nil => Nil
    case Node(l, k, rt) =>
      if key == k then t
      else if key < k then Find(l, key)
      else Find(rt, key)
  }

  /** In a search tree the descent finds every key the tree holds. */
  lemma {:induction false} FindInSearchTree(t: Tree, key: int)
    requires IsBST(t)
    ensures Find(t, key).Node? <==> key in Keys(t)
  {
    match t
    case Nil =>
    case Node(l, k, rt) =>
      if key < k {
        FindInSearchTree(l, key);
        assert key !in Keys(rt);
      } else if k < key {
        FindInSearchTree(rt, key);
        assert key !in Keys(l);
      }
  }

  /** `SearchWithRoot`: descends from the root and returns the very node holding
      the key (with its subtree), or Nil. */
  method SearchWithRoot(t: Tree, key: int) returns (r: Tree)
    ensures r == Find(t, key)
    ensures r.Node? ==> r.key == key && SubtreeOf(r, t)
    ensures IsBST(t) ==> (r.Node? <==> key in Keys(t))
  {
    var current := t;
    while current.Node? && current.key != key
      invariant Find(current, key) == Find(t, key)
      decreases current
    {
      if key < current.key {
        current := current.left;
      } else {
        current := current.right;
      }
    }
    r := current;
    if IsBST(t) {
      FindInSearchTree(t, key);
    }
  }

  // ---------------------------------------------------------------- insert

  /** Result of `TryInsertWithRoot`: whether the key was new, the tree after the
      new leaf is linked in, and the ancestor stack (bottom = root, top = last). */
  datatype Insertion = Insertion(inserted: bool, tree: Tree, path: seq<Tree>)

  /** `TryInsertWithRoot`: every node compared against is pushed on the path; a
      duplicate stops the descent with the matching node on top of the path and
      the tree unchanged; otherwise the new leaf fills the empty slot reached
      (an empty tree becomes the leaf, with an empty path). */
  function TryInsertWithRoot(t: Tree, key: int): (r: Insertion)
    ensures r.inserted <==> Find(t, key).Nil?
    ensures !r.inserted ==> r.tree == t
    ensures Size(r.tree) == Size(t) + (if r.inserted then 1 else 0)
  {
    match t
    case Nil => Insertion(true, Leaf(key), [])
    case Node(l, k, rt) =>
      if key == k then
        Insertion(false, t, [t])
      else if key < k then
        var sub := TryInsertWithRoot(l, key);
        var n := Node(sub.tree, k, rt);
        Insertion(sub.inserted, n, [n] + sub.path)
      else
        var sub := TryInsertWithRoot(rt, key);
        var n := Node(l, k, sub.tree);
        Insertion(sub.inserted, n, [n] + sub.path)
  }

  /** Insertion adds exactly the key, and only when it is absent, and keeps
      the search-tree order. */
  lemma {:induction false} InsertKeepsOrder(t: Tree, key: int)
    requires IsBST(t)
    ensures var r := TryInsertWithRoot(t, key);
            && (r.inserted <==> key !in Keys(t))
            && Keys(r.tree) == Keys(t) + {key}
            && IsBST(r.tree)
  {
    FindInSearchTree(t, key);
    match t
    case Nil =>
    case Node(l, k, rt) =>
      if key < k {
        InsertKeepsOrder(l, key);
      } else if k < key {
        InsertKeepsOrder(rt, key);
      }
  }

  ghost predicate ChildOf(c: Tree, p: Tree) {
    p.Node? && (c == p.left || c == p.right)
  }

  /** The path starts at the root and each entry is a child of the one below it. */
  ghost predicate IsDescent(t: Tree, path: seq<Tree>) {
    && (|path| > 0 ==> path[0] == t)
    && (forall j :: 0 <= j < |path| - 1 ==> ChildOf(path[j + 1], path[j]))
  }

  /** The ancestor stack of an insertion: a chain of nodes from the root down to
      the new leaf's parent (or to the duplicate's node). */
  lemma {:induction false} InsertionPath(t: Tree, key: int)
    ensures var r := TryInsertWithRoot(t, key);
            && IsDescent(r.tree, r.path)
            && (forall j :: 0 <= j < |r.path| ==> r.path[j].Node?)
            && (r.inserted && |r.path| == 0 ==> r.tree == Leaf(key))
            && (r.inserted && |r.path| > 0 ==> ChildOf(Leaf(key), r.path[|r.path| - 1]))
            && (!r.inserted ==> |r.path| > 0 && r.path[|r.path| - 1].key == key)
  {
    match t
    case Nil =>
    case Node(l, k, rt) =>
      if key == k {
      } else {
        var child := if key < k then l else rt;
        InsertionPath(child, key);
        var sub := TryInsertWithRoot(child, key);
        var r := TryInsertWithRoot(t, key);
        assert r.inserted == sub.inserted;
        assert r.tree == if key < k then Node(sub.tree, k, rt) else Node(l, k, sub.tree);
        assert r.path == [r.tree] + sub.path;
        assert |sub.path| > 0 ==> r.path[|r.path| - 1] == sub.path[|sub.path| - 1];
        assert |sub.path| > 0 ==> ChildOf(sub.path[0], r.tree);
        forall j | 0 <= j < |r.path|
          ensures r.path[j].Node?
        {
          if j > 0 {
            assert r.path[j] == sub.path[j - 1];
          }
        }
        forall j | 0 <= j < |r.path| - 1
          ensures ChildOf(r.path[j + 1], r.path[j])
        {
          if j > 0 {
            assert r.path[j + 1] == sub.path[j] && r.path[j] == sub.path[j - 1];
          }
        }
      }
  }

  /** The ancestor stack is never longer than the tree is high: the new node
      lands at most one level below the deepest existing node. */
  lemma {:induction false} PathWithinHeight(t: Tree, key: int)
    ensures |TryInsertWithRoot(t, key).path| <= Height(t)
  {
    match t
    case Nil =>
    case Node(l, k, rt) =>
      if key < k {
        PathWithinHeight(l, key);
      } else if k < key {
        PathWithinHeight(rt, key);
      }
  }

  // ---------------------------------------------------------------- scapegoat

  /** The depth-bound test `depth > log(count) / log(1 / alpha)`, stated without
      logarithms as `count * alpha^depth < 1`: each level of depth scales the
      count by alpha. */
  predicate ExceedsDepthBound(count: real, depth: nat, alpha: real)
    decreases depth
  {
    if depth == 0 then count < 1.0 else ExceedsDepthBound(count * alpha, depth - 1, alpha)
  }

  /** For a positive alpha the bound separates counts: one that passes it at a
      depth is smaller than one that fails it there. */
  lemma {:induction false} BoundSeparates(x: real, y: real, depth: nat, alpha: real)
    requires 0.0 < alpha
    requires ExceedsDepthBound(x, depth, alpha) && !ExceedsDepthBound(y, depth, alpha)
    ensures x < y
    decreases depth
  {
    if depth > 0 {
      BoundSeparates(x * alpha, y * alpha, depth - 1, alpha);
      assert (y - x) * alpha > 0.0;
    }
  }

  /** For 0 < alpha <= 1 a node that fails the bound at some depth fails it at
      every greater depth as well. */
  lemma {:induction false} DepthBoundMonotone(count: real, d: nat, e: nat, alpha: real)
    requires 0.0 <= count && 0.0 < alpha <= 1.0 && d <= e
    requires ExceedsDepthBound(count, d, alpha)
    ensures ExceedsDepthBound(count, e, alpha)
    decreases d, e
  {
    if d > 0 {
      DepthBoundMonotone(count * alpha, d - 1, e - 1, alpha);
    } else if e > 0 {
      assert count * alpha <= count by {
        assert count * (1.0 - alpha) >= 0.0;
      }
      DepthBoundMonotone(count * alpha, 0, e - 1, alpha);
    }
  }

  /** Scans path[..i] from the top of the stack down. The entry path[j] lies
      |path| - j levels above the new node. */
  function ScapegoatIndexBelow(path: seq<Tree>, alpha: real, i: nat): (r: Option<nat>)
    requires i <= |path|
    ensures r.Some? ==> r.value < i && ExceedsDepthBound(Size(path[r.value]) as real, |path| - r.value, alpha)
    ensures r.Some? ==> forall j :: r.value < j < i ==> !ExceedsDepthBound(Size(path[j]) as real, |path| - j, alpha)
    ensures r.None? ==> forall j :: 0 <= j < i ==> !ExceedsDepthBound(Size(path[j]) as real, |path| - j, alpha)
    decreases i
  {
    if i == 0 then None
    else if ExceedsDepthBound(Size(path[i - 1]) as real, |path| - (i - 1), alpha) then Some(i - 1)
    else ScapegoatIndexBelow(path, alpha, i - 1)
  }

  /** The position of the scapegoat: the ancestor nearest the new node whose
      subtree is too small for the new node's depth inside it. */
  function ScapegoatIndex(path: seq<Tree>, alpha: real): Option<nat> {
    ScapegoatIndexBelow(path, alpha, |path|)
  }

  /** `FindScapegoatInPath`: pops ancestors, counting their depth above the new
      node from 1, and returns the first one that fails the depth bound together
      with the node below it on the stack (its parent), if any. */
  method FindScapegoatInPath(path: seq<Tree>, alpha: real) returns (r: Result<(Option<Tree>, Tree)>)
    ensures |path| == 0 ==> r == Failure(InvalidArgument)
    ensures |path| > 0 && ScapegoatIndex(path, alpha).None? ==>
              r == Failure(InvalidOperation(NoScapegoatMessage))
    ensures |path| > 0 && ScapegoatIndex(path, alpha).Some? ==>
              var k := ScapegoatIndex(path, alpha).value;
              r == Success((if k == 0 then None else Some(path[k - 1]), path[k]))
  {
    if |path| == 0 {
      return Failure(InvalidArgument);
    }
    var stack := path;
    var depth := 1;
    while stack != []
      invariant |stack| <= |path| && stack == path[..|stack|]
      invariant depth == |path| - |stack| + 1
      invariant ScapegoatIndexBelow(path, alpha, |stack|) == ScapegoatIndex(path, alpha)
    {
      var next := stack[|stack| - 1];
      stack := stack[..|stack| - 1];
      if ExceedsDepthBound(Size(next) as real, depth, alpha) {
        var parent := if stack == [] then None else Some(stack[|stack| - 1]);
        return Success((parent, next));
      }
      depth := depth + 1;
    }
    return Failure(InvalidOperation(NoScapegoatMessage));
  }

  /** The scapegoat chosen on an insertion path is out of alpha-weight balance:
      the child through which the new node was reached holds more than alpha
      times the scapegoat's subtree. */
  lemma ScapegoatIsUnbalanced(path: seq<Tree>, alpha: real, leaf: Tree)
    requires 0.0 < alpha
    requires |path| > 0 && ScapegoatIndex(path, alpha).Some?
    requires forall j :: 0 <= j < |path| - 1 ==> ChildOf(path[j + 1], path[j])
    requires Size(leaf) == 1 && ChildOf(leaf, path[|path| - 1])
    ensures !LocallyBalanced(path[ScapegoatIndex(path, alpha).value], alpha)
  {
    var k := ScapegoatIndex(path, alpha).value;
    var c := if k + 1 < |path| then path[k + 1] else leaf;
    assert ChildOf(c, path[k]);
    var d := |path| - k - 1;
    assert !ExceedsDepthBound(Size(c) as real, d, alpha) by {
      if k + 1 < |path| {
        assert !ExceedsDepthBound(Size(path[k + 1]) as real, |path| - (k + 1), alpha);
      }
    }
    ChildAboveShare(Size(path[k]), Size(c), d, alpha);
  }

  /** A node that fails the bound at depth d + 1 while its child passes it at
      depth d has a child heavier than alpha times its own size. */
  lemma ChildAboveShare(whole: nat, part: nat, d: nat, alpha: real)
    requires 0.0 < alpha
    requires ExceedsDepthBound(whole as real, d + 1, alpha)
    requires !ExceedsDepthBound(part as real, d, alpha)
    ensures !AtMostShare(part, alpha, whole)
  {
    BoundSeparates(whole as real * alpha, part as real, d, alpha);
  }

  /** When the new node sits deeper than the bound allows for a tree of at most
      `maxSize` nodes, some ancestor fails the bound too (at least the root), so
      scapegoat discovery never reports InvalidOperation. */
  lemma DepthBoundGuaranteesScapegoat(path: seq<Tree>, alpha: real, maxSize: nat)
    requires 0.0 < alpha
    requires |path| > 0 && Size(path[0]) <= maxSize
    requires ExceedsDepthBound(maxSize as real, |path|, alpha)
    ensures ScapegoatIndex(path, alpha).Some?
  {
    if !ExceedsDepthBound(Size(path[0]) as real, |path| - 0, alpha) {
      BoundSeparates(maxSize as real, Size(path[0]) as real, |path|, alpha);
    }
  }

  // ---------------------------------------------------------------- delete

  /** Result of `TryDeleteWithRoot`: whether the key was found and the tree after
      the deletion (the root slot itself may change). */
  datatype Deletion = Deletion(deleted: bool, tree: Tree)

  /** The key of the right-most node: the in-order predecessor of a node whose
      left subtree this is. */
  function MaxKey(t: Tree): (m: int)
    requires t.Node?
    ensures m in Keys(t)
    ensures IsBST(t) ==> forall x :: x in Keys(t) ==> x <= m
  {
    if t.right.Nil? then t.key else MaxKey(t.right)
  }

  /** Unlinks the right-most node, which has no right child, by splicing its
      left child into its place. */
  function RemoveMax(t: Tree): (r: Tree)
    requires t.Node?
    ensures Size(r) == Size(t) - 1
    ensures InOrder(r) + [MaxKey(t)] == InOrder(t)
    ensures IsBST(t) ==> IsBST(r) && Keys(r) == Keys(t) - {MaxKey(t)}
  {
    if t.right.Nil? then t.left
    else
      var r := Node(t.left, t.key, RemoveMax(t.right));
      assert InOrder(r) + [MaxKey(t)] == InOrder(t.left) + [t.key] + (InOrder(RemoveMax(t.right)) + [MaxKey(t.right)]);
      r
  }

  /** `TryDeleteWithRoot`: a leaf is cut off, a node with one child is replaced by
      that child, and a node with two children takes the key of its in-order
      predecessor, whose own node is then spliced out of the left subtree. */
  function TryDeleteWithRoot(t: Tree, key: int): (r: Deletion)
    ensures r.deleted <==> Find(t, key).Node?
    ensures !r.deleted ==> r.tree == t
    ensures Size(r.tree) == Size(t) - (if r.deleted then 1 else 0)
    decreases t
  {
    match t
    case Nil => Deletion(false, Nil)
    case Node(l, k, rt) =>
      if key < k then
        var d := TryDeleteWithRoot(l, key);
        Deletion(d.deleted, Node(d.tree, k, rt))
      else if k < key then
        var d := TryDeleteWithRoot(rt, key);
        Deletion(d.deleted, Node(l, k, d.tree))
      else if l.Nil? then
        Deletion(true, rt)
      else if rt.Nil? then
        Deletion(true, l)
      else
        Deletion(true, Node(RemoveMax(l), MaxKey(l), rt))
  }

  /** Deletion removes exactly the key, reports whether it was there, and keeps
      the search-tree order. */
  lemma {:induction false} DeleteKeepsOrder(t: Tree, key: int)
    requires IsBST(t)
    ensures var r := TryDeleteWithRoot(t, key);
            && (r.deleted <==> key in Keys(t))
            && Keys(r.tree) == Keys(t) - {key}
            && IsBST(r.tree)
  {
    FindInSearchTree(t, key);
    match t
    case Nil =>
    case Node(l, k, rt) =>
      if key < k {
        DeleteKeepsOrder(l, key);
        DeleteBelowKeepsOrder(l, k, rt, key, TryDeleteWithRoot(l, key).tree);
      } else if k < key {
        DeleteKeepsOrder(rt, key);
        DeleteAboveKeepsOrder(l, k, rt, key, TryDeleteWithRoot(rt, key).tree);
      } else if l.Node? && rt.Node? {
        PredecessorKeepsOrder(l, k, rt);
      }
  }

  lemma DeleteBelowKeepsOrder(l: Tree, k: int, rt: Tree, key: int, l': Tree)
    requires IsBST(Node(l, k, rt)) && key < k
    requires Keys(l') == Keys(l) - {key} && IsBST(l')
    ensures Keys(Node(l', k, rt)) == Keys(Node(l, k, rt)) - {key}
    ensures IsBST(Node(l', k, rt))
  {
  }

  lemma DeleteAboveKeepsOrder(l: Tree, k: int, rt: Tree, key: int, rt': Tree)
    requires IsBST(Node(l, k, rt)) && k < key
    requires Keys(rt') == Keys(rt) - {key} && IsBST(rt')
    ensures Keys(Node(l, k, rt')) == Keys(Node(l, k, rt)) - {key}
    ensures IsBST(Node(l, k, rt'))
  {
  }

  /** The in-order predecessor can take the place of the deleted key. */
  lemma PredecessorKeepsOrder(l: Tree, k: int, rt: Tree)
    requires IsBST(Node(l, k, rt)) && l.Node? && rt.Node?
    ensures Keys(Node(RemoveMax(l), MaxKey(l), rt)) == Keys(Node(l, k, rt)) - {k}
    ensures IsBST(Node(RemoveMax(l), MaxKey(l), rt))
  {
    var m := MaxKey(l);
    assert m < k;
    forall x | x in Keys(rt) ensures m < x {
      assert k < x;
    }
  }

  // ---------------------------------------------------------------- flatten / rebuild

  /** `FlattenTree`: appends the subtree's nodes to the list in order. A node in
      the list is represented by its key, since rebuilding overwrites both of its
      child links. */
  method FlattenTree(t: Tree, list: seq<int>) returns (result: seq<int>)
    ensures result == list + InOrder(t)
    ensures |result| == |list| + Size(t)
    ensures IsBST(t) ==> StrictlySorted(result[|list|..])
    decreases t
  {
    match t {
      case Nil =>
        result := list;
      case Node(l, k, r) =>
        result := FlattenTree(l, list);
        result := result + [k];
        result := FlattenTree(r, result);
    }
    InOrderFacts(t);
    BSTIffSorted(t);
    assert result[|list|..] == InOrder(t);
  }

  /** The recursive core of `RebuildFromList`, applied to the range's elements:
      the element at offset n / 2 of n (the upper middle, index
      (start + end + 1) / 2 of the range [start, end]) becomes the root and the
      two halves its subtrees. */
  function Rebuild(s: seq<int>): (r: Tree)
    ensures InOrder(r) == s
    ensures Size(r) == |s|
    decreases |s|
  {
    if |s| == 0 then Nil
    else
      var p := |s| / 2;
      assert s == s[..p] + [s[p]] + s[p + 1..];
      Node(Rebuild(s[..p]), s[p], Rebuild(s[p + 1..]))
  }

  /** `RebuildFromList`: an empty or reversed range is an invalid argument. */
  function RebuildFromList(list: seq<int>, start: int, end: int): (r: Result<Tree>)
    requires start > end || (0 <= start && end < |list|)
    ensures r.Failure? <==> start > end
    ensures r.Failure? ==> r.error == InvalidArgument
    ensures r.Success? ==> InOrder(r.value) == list[start..end + 1]
  {
    if start > end then Failure(InvalidArgument) else Success(Rebuild(list[start..end + 1]))
  }

  /** The rebuilt range is perfectly balanced: each side holds at most half of
      every subtree, and the height is that of a complete tree. */
  lemma {:induction false} RebuildShape(s: seq<int>)
    ensures WeightBalanced(Rebuild(s), 0.5)
    ensures Height(Rebuild(s)) == BitLength(|s|)
    decreases |s|
  {
    if |s| > 0 {
      var n := |s|;
      var p := n / 2;
      RebuildShape(s[..p]);
      RebuildShape(s[p + 1..]);
      assert |s[p + 1..]| == (n - 1) / 2;
      HalvesWithinShare(n);
      BitLengthMonotone((n - 1) / 2, n / 2);
    }
  }

  lemma HalvesWithinShare(n: nat)
    requires 1 <= n
    ensures AtMostShare(n / 2, 0.5, n) && AtMostShare((n - 1) / 2, 0.5, n)
  {
    assert 2 * (n / 2) <= n;
    assert (n / 2) as real * 2.0 <= n as real;
  }

  /** The rebuilt subtree: the pure counterpart of `RebuildWithRoot`. */
  function Rebalanced(t: Tree): (r: Tree)
    ensures InOrder(r) == InOrder(t)
  {
    Rebuild(InOrder(t))
  }

  /** A rebuilt subtree keeps its keys in order, is alpha-weight-balanced for
      every alpha of at least 1/2, and has the least height any tree of its size
      can have. */
  lemma RebalancedProperties(t: Tree, alpha: real)
    requires 0.5 <= alpha
    ensures Size(Rebalanced(t)) == Size(t)
    ensures Keys(Rebalanced(t)) == Keys(t)
    ensures IsBST(Rebalanced(t)) <==> IsBST(t)
    ensures WeightBalanced(Rebalanced(t), alpha)
    ensures Height(Rebalanced(t)) == BitLength(Size(t))
    ensures forall u: Tree :: Size(u) == Size(t) ==> Height(Rebalanced(t)) <= Height(u)
  {
    var r := Rebalanced(t);
    RebalancedContents(t, alpha);
    if t.Node? {
      InOrderFacts(t);
      RebuildShape(InOrder(t));
    }
    forall u: Tree | Size(u) == Size(t) ensures Height(r) <= Height(u) {
      HeightAtLeastBitLength(u);
    }
  }

  /** The contents half of `RebalancedProperties`: same keys, same size, same
      order, and balanced. */
  lemma RebalancedContents(t: Tree, alpha: real)
    requires 0.5 <= alpha
    ensures Size(Rebalanced(t)) == Size(t)
    ensures Keys(Rebalanced(t)) == Keys(t)
    ensures IsBST(Rebalanced(t)) <==> IsBST(t)
    ensures WeightBalanced(Rebalanced(t), alpha)
  {
    var r := Rebalanced(t);
    SameInOrder(r, t);
    if t.Node? {
      InOrderFacts(t);
      RebuildShape(InOrder(t));
      WeightBalancedMonotone(r, 0.5, alpha);
    }
  }

  /** Two trees with the same in-order keys hold the same keys, have the same size
      and are search trees together. */
  lemma SameInOrder(a: Tree, b: Tree)
    requires InOrder(a) == InOrder(b)
    ensures Keys(a) == Keys(b)
    ensures Size(a) == Size(b)
    ensures IsBST(a) <==> IsBST(b)
  {
    InOrderFacts(a);
    InOrderFacts(b);
    BSTIffSorted(a);
    BSTIffSorted(b);
    forall x ensures x in Keys(a) <==> x in Keys(b) {
      assert x in InOrder(a) <==> x in InOrder(b);
    }
  }

  /** `RebuildWithRoot`: flattens the subtree and rebuilds it from the full list. */
  method RebuildWithRoot(t: Tree) returns (r: Tree)
    requires t.Node?
    ensures r == Rebalanced(t)
    ensures InOrder(r) == InOrder(t)
    ensures WeightBalanced(r, 0.5)
    ensures Height(r) == BitLength(Size(t))
  {
    var list := FlattenTree(t, []);
    assert list == InOrder(t);
    var rebuilt := RebuildFromList(list, 0, |list| - 1);
    assert list[0..|list|] == list;
    r := rebuilt.value;
    RebalancedProperties(t, 0.5);
  }

  /** The subtree reached by `depth` steps of the search-tree descent towards
      `key` (Nil when the descent falls off earlier). */
  function SubtreeAt(t: Tree, key: int, depth: nat): Tree {
    if depth == 0 then t
    else match t
      case Nil => Nil
      case Node(l, k, rt) => SubtreeAt(if key < k then l else rt, key, depth - 1)
  }

  /** Repoints the slot reached by `depth` steps of the descent towards `key` to
      `s`: how a rebuilt scapegoat subtree is spliced into its parent's slot (or,
      at depth 0, becomes the root). */
  function ReplaceAt(t: Tree, key: int, depth: nat, s: Tree): (r: Tree)
    ensures SubtreeAt(t, key, depth).Node? ==> SubtreeAt(r, key, depth) == s
    ensures InOrder(SubtreeAt(t, key, depth)) == InOrder(s) ==> InOrder(r) == InOrder(t)
  {
    if depth == 0 then s
    else match t
      case Nil => Nil
      case Node(l, k, rt) =>
        if key < k then Node(ReplaceAt(l, key, depth - 1, s), k, rt)
        else Node(l, k, ReplaceAt(rt, key, depth - 1, s))
  }

  /** The child that a descent towards `key` leaves aside at a node. */
  function OffDescent(t: Tree, key: int): Tree
    requires t.Node?
  {
    if key < t.key then t.right else t.left
  }

  /** Repointing a slot changes nothing above it: every node on the descent to
      the slot keeps its key and the subtree the descent leaves aside. */
  lemma {:induction false} ReplaceAtFrame(t: Tree, key: int, depth: nat, s: Tree, j: nat)
    requires j < depth && SubtreeAt(t, key, depth).Node?
    ensures var a, b := SubtreeAt(t, key, j), SubtreeAt(ReplaceAt(t, key, depth, s), key, j);
            a.Node? && b.Node? && b.key == a.key && OffDescent(b, key) == OffDescent(a, key)
  {
    assert t.Node?;
    var child := if key < t.key then t.left else t.right;
    assert SubtreeAt(child, key, depth - 1) == SubtreeAt(t, key, depth);
    if j > 0 {
      ReplaceAtFrame(child, key, depth - 1, s, j - 1);
    }
  }

  /** The j-th entry of an insertion's ancestor stack is the subtree j steps down
      the descent towards the inserted key. */
  lemma {:induction false} InsertionPathPositions(t: Tree, key: int, j: nat)
    requires j < |TryInsertWithRoot(t, key).path|
    ensures SubtreeAt(TryInsertWithRoot(t, key).tree, key, j) == TryInsertWithRoot(t, key).path[j]
  {
    match t
    case Nil =>
    case Node(l, k, rt) =>
      if key != k {
        var child := if key < k then l else rt;
        var sub := TryInsertWithRoot(child, key);
        var r := TryInsertWithRoot(t, key);
        assert r.path == [r.tree] + sub.path;
        if j > 0 {
          InsertionPathPositions(child, key, j - 1);
          assert SubtreeAt(r.tree, key, j) == SubtreeAt(sub.tree, key, j - 1);
        }
      }
  }
}
