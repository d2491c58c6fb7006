/** The tree controller (`ScapegoatTree<T>`): owns the root, the current size,
    the high-water mark `maxSize` and the balance parameter `alpha`, and after
    each insertion or deletion decides whether a rebuild is due. The
    `TreeIsUnbalanced` event is a ghost counter of the times it is raised. */
module Controller {
  import opened Wrappers
  import opened Trees
  import opened Implementation

  const DefaultAlpha: real := 0.5

  /** The accepted range of alpha: from 1/2 (the default, accepted) up to 1. */
  predicate ValidAlpha(alpha: real) {
    0.5 <= alpha <= 1.0
  }

  /** After a successful insertion: is the new node deeper than
      log(maxSize) / log(1 / alpha)? */
  predicate InsertTooDeep(t: Tree, key: int, maxSize: nat, alpha: real) {
    var ins := TryInsertWithRoot(t, key);
    ins.inserted && ExceedsDepthBound(Max(maxSize, Size(ins.tree)) as real, |ins.path|, alpha)
  }

  /** The tree an insertion leaves: the new leaf linked in and, when it sits too
      deep, the scapegoat's subtree rebuilt in the scapegoat's slot. */
  function InsertPolicy(t: Tree, key: int, maxSize: nat, alpha: real): (r: Tree)
    ensures InOrder(r) == InOrder(TryInsertWithRoot(t, key).tree)
  {
    var ins := TryInsertWithRoot(t, key);
    if InsertTooDeep(t, key, maxSize, alpha) then
      match ScapegoatIndex(ins.path, alpha)
      case Some(k) =>
        InsertionPathPositions(t, key, k);
        ReplaceAt(ins.tree, key, k, Rebalanced(ins.path[k]))
      case None => ins.tree
    else ins.tree
  }

  /** When the insertion is too deep and the scapegoat sits at depth k, the
      policy's tree is the rebuilt scapegoat spliced in at depth k. */
  lemma PolicyAtScapegoat(t: Tree, key: int, maxSize: nat, alpha: real, k: nat)
    requires InsertTooDeep(t, key, maxSize, alpha)
    requires ScapegoatIndex(TryInsertWithRoot(t, key).path, alpha) == Some(k)
    ensures k < |TryInsertWithRoot(t, key).path|
    ensures var ins := TryInsertWithRoot(t, key);
            InsertPolicy(t, key, maxSize, alpha) == ReplaceAt(ins.tree, key, k, Rebalanced(ins.path[k]))
  {
  }

  /** A too-deep insertion changes the tree only in the scapegoat's slot: every
      ancestor above the scapegoat keeps its key and the subtree the descent
      leaves aside, the slot holds the scapegoat's rebuild, and the tree holds
      the same keys and nodes as after the plain insertion. */
  lemma InsertPolicyFrame(t: Tree, key: int, maxSize: nat, alpha: real, k: nat)
    requires InsertTooDeep(t, key, maxSize, alpha)
    requires ScapegoatIndex(TryInsertWithRoot(t, key).path, alpha) == Some(k)
    ensures var ins, r := TryInsertWithRoot(t, key), InsertPolicy(t, key, maxSize, alpha);
            && k < |ins.path|
            && SubtreeAt(r, key, k) == Rebalanced(ins.path[k])
            && (forall j :: 0 <= j < k ==>
                  && SubtreeAt(r, key, j).Node? && ins.path[j].Node?
                  && SubtreeAt(r, key, j).key == ins.path[j].key
                  && OffDescent(SubtreeAt(r, key, j), key) == OffDescent(ins.path[j], key))
            && Size(r) == Size(ins.tree) && Keys(r) == Keys(ins.tree)
  {
    var ins := TryInsertWithRoot(t, key);
    var r := InsertPolicy(t, key, maxSize, alpha);
    PolicyAtScapegoat(t, key, maxSize, alpha, k);
    InsertionPath(t, key);
    InsertionPathPositions(t, key, k);
    forall j | 0 <= j < k
      ensures && SubtreeAt(r, key, j).Node? && ins.path[j].Node?
              && SubtreeAt(r, key, j).key == ins.path[j].key
              && OffDescent(SubtreeAt(r, key, j), key) == OffDescent(ins.path[j], key)
    {
      InsertionPathPositions(t, key, j);
      ReplaceAtFrame(ins.tree, key, k, Rebalanced(ins.path[k]), j);
    }
    SameInOrder(r, ins.tree);
  }

  /** An insertion adds exactly the new key (when it is new), one node, and keeps
      the search-tree order. */
  lemma InsertPolicyKeys(t: Tree, key: int, maxSize: nat, alpha: real)
    ensures var r := InsertPolicy(t, key, maxSize, alpha);
            && Size(r) == Size(t) + (if TryInsertWithRoot(t, key).inserted then 1 else 0)
            && (IsBST(t) ==> IsBST(r) && Keys(r) == Keys(t) + {key})
  {
    SameInOrder(InsertPolicy(t, key, maxSize, alpha), TryInsertWithRoot(t, key).tree);
    if IsBST(t) {
      InsertKeepsOrder(t, key);
    }
  }

  /** An insertion raises nothing when even a node one level below the current
      height would pass the bound for the new maxSize; the tree is then just the
      new leaf linked in. */
  lemma InsertQuietWhenShallow(t: Tree, key: int, maxSize: nat, alpha: real)
    requires ValidAlpha(alpha)
    requires !ExceedsDepthBound(Max(maxSize, Size(t) + 1) as real, Height(t), alpha)
    ensures !InsertTooDeep(t, key, maxSize, alpha)
    ensures InsertPolicy(t, key, maxSize, alpha) == TryInsertWithRoot(t, key).tree
  {
    var ins := TryInsertWithRoot(t, key);
    if ins.inserted {
      PathWithinHeight(t, key);
      var m := Max(maxSize, Size(ins.tree)) as real;
      if ExceedsDepthBound(m, |ins.path|, alpha) {
        DepthBoundMonotone(m, |ins.path|, Height(t), alpha);
      }
    }
  }

  /** When an insertion goes too deep in a tree of at most maxSize nodes, a
      scapegoat exists; it was out of alpha-weight balance, and in its place now
      sits an alpha-weight-balanced subtree of least height holding the same keys. */
  lemma InsertRebuildsScapegoat(t: Tree, key: int, maxSize: nat, alpha: real)
    requires Size(t) <= maxSize && ValidAlpha(alpha)
    requires InsertTooDeep(t, key, maxSize, alpha)
    ensures var ins := TryInsertWithRoot(t, key);
            var r := InsertPolicy(t, key, maxSize, alpha);
            && ScapegoatIndex(ins.path, alpha).Some?
            && var k := ScapegoatIndex(ins.path, alpha).value;
            && !LocallyBalanced(ins.path[k], alpha)
            && InOrder(SubtreeAt(r, key, k)) == InOrder(ins.path[k])
            && WeightBalanced(SubtreeAt(r, key, k), alpha)
            && Height(SubtreeAt(r, key, k)) == BitLength(Size(ins.path[k]))
  {
    var ins := TryInsertWithRoot(t, key);
    InsertionPath(t, key);
    var m := Max(maxSize, Size(ins.tree));
    DepthBoundGuaranteesScapegoat(ins.path, alpha, m);
    var k := ScapegoatIndex(ins.path, alpha).value;
    ScapegoatIsUnbalanced(ins.path, alpha, Leaf(key));
    InsertionPathPositions(t, key, k);
    RebalancedProperties(ins.path[k], alpha);
  }

  /** After a successful deletion: deleting the root's key, or shrinking the
      tree to at most alpha * maxSize nodes, rebuilds the whole tree. */
  predicate DeleteRebuilds(t: Tree, key: int, maxSize: nat, alpha: real) {
    && TryDeleteWithRoot(t, key).deleted
    && (t.key == key || AtMostShare(Size(t) - 1, alpha, maxSize))
  }

  /** The tree a deletion leaves: the key unlinked and, when the deletion
      rebuilds, the whole remaining tree rebuilt. */
  function DeletePolicy(t: Tree, key: int, maxSize: nat, alpha: real): (r: Tree)
    ensures InOrder(r) == InOrder(TryDeleteWithRoot(t, key).tree)
  {
    var del := TryDeleteWithRoot(t, key);
    if DeleteRebuilds(t, key, maxSize, alpha) then Rebalanced(del.tree) else del.tree
  }

  /** A deletion removes exactly the key (when present) and one node, keeps the
      search-tree order, and a rebuild leaves the tree alpha-weight-balanced. */
  lemma DeletePolicyKeys(t: Tree, key: int, maxSize: nat, alpha: real)
    requires ValidAlpha(alpha)
    ensures var r := DeletePolicy(t, key, maxSize, alpha);
            && Size(r) == Size(t) - (if TryDeleteWithRoot(t, key).deleted then 1 else 0)
            && (IsBST(t) ==> IsBST(r) && Keys(r) == Keys(t) - {key})
            && (DeleteRebuilds(t, key, maxSize, alpha) ==> WeightBalanced(r, alpha))
  {
    var del := TryDeleteWithRoot(t, key);
    SameInOrder(DeletePolicy(t, key, maxSize, alpha), del.tree);
    if IsBST(t) {
      DeleteKeepsOrder(t, key);
    }
    if DeleteRebuilds(t, key, maxSize, alpha) {
      RebalancedContents(del.tree, alpha);
    }
  }

  class ScapegoatTree {
    var root: Tree
    var size: nat
    var maxSize: nat
    var alpha: real
    /** How many times `TreeIsUnbalanced` has been raised. */
    ghost var notifications: nat

    ghost predicate Valid()
      reads this
    {
      && size == Size(root)
      && size <= maxSize
      && ValidAlpha(alpha)
    }

    /** An empty tree with the default alpha. */
    constructor ()
      ensures Valid()
      ensures root == Nil && size == 0 && maxSize == 0 && alpha == DefaultAlpha
      ensures notifications == 0
    {
      root := Nil;
      size := 0;
      maxSize := 0;
      alpha := DefaultAlpha;
      notifications := 0;
    }

    /** A one-key tree with the default alpha. */
    constructor WithKey(key: int)
      ensures Valid()
      ensures root == Leaf(key) && size == 1 && maxSize == 1 && alpha == DefaultAlpha
      ensures notifications == 0
    {
      root := Leaf(key);
      size := 1;
      maxSize := 1;
      alpha := DefaultAlpha;
      notifications := 0;
    }

    /** Adopts an existing node as the root; Size and MaxSize are its subtree size. */
    constructor FromRoot(node: Tree, a: real)
      requires ValidAlpha(a)
      ensures Valid()
      ensures root == node && size == Size(node) && maxSize == Size(node) && alpha == a
      ensures notifications == 0
    {
      root := node;
      size := Size(node);
      maxSize := Size(node);
      alpha := a;
      notifications := 0;
    }

    /** The constructors that take an alpha (with no key, a key, or a node):
        an alpha outside the range is an ArgumentException. */
    static method Create(node: Tree, a: real) returns (r: Result<ScapegoatTree>)
      ensures r.Failure? <==> !ValidAlpha(a)
      ensures r.Failure? ==> r.error == InvalidArgument
      ensures r.Success? ==> fresh(r.value) && r.value.Valid()
      ensures r.Success? ==> r.value.root == node && r.value.size == Size(node)
                             && r.value.maxSize == Size(node) && r.value.alpha == a
    {
      if !ValidAlpha(a) {
        return Failure(InvalidArgument);
      }
      var tree := new ScapegoatTree.FromRoot(node, a);
      return Success(tree);
    }

    /** The node holding the key, or Nil. */
    method Search(key: int) returns (r: Tree)
      ensures r == Find(root, key)
      ensures r.Node? ==> r.key == key
      ensures IsBST(root) ==> (r.Node? <==> key in Keys(root))
    {
      r := SearchWithRoot(root, key);
    }

    method Contains(key: int) returns (b: bool)
      ensures b <==> Find(root, key).Node?
      ensures IsBST(root) ==> (b <==> key in Keys(root))
    {
      var node := Search(key);
      b := node.Node?;
    }

    /** An empty tree counts as balanced; otherwise every node passes the test
        with the current alpha. */
    method IsAlphaWeightBalanced() returns (b: bool)
      ensures root.Nil? ==> b
      ensures b <==> forall s :: SubtreeOf(s, root) ==> LocallyBalanced(s, alpha)
    {
      WeightBalancedEverywhere(root, alpha);
      b := WeightBalanced(root, alpha);
    }

    /** Changes alpha without rebalancing; an out-of-range alpha is an
        ArgumentException and changes nothing. */
    method Tune(a: real) returns (o: Outcome)
      requires Valid()
      modifies this
      ensures Valid()
      ensures o == (if ValidAlpha(a) then Pass else Fail(InvalidArgument))
      ensures alpha == (if ValidAlpha(a) then a else old(alpha))
      ensures root == old(root) && size == old(size) && maxSize == old(maxSize)
      ensures notifications == old(notifications)
    {
      if !ValidAlpha(a) {
        return Fail(InvalidArgument);
      }
      alpha := a;
      return Pass;
    }

    method Clear()
      requires Valid()
      modifies this
      ensures Valid()
      ensures root == Nil && size == 0 && maxSize == 0
      ensures alpha == old(alpha) && notifications == old(notifications)
    {
      root := Nil;
      size := 0;
      maxSize := 0;
    }

    /** Links a new key in; raises `TreeIsUnbalanced` and rebuilds the scapegoat's
        subtree when the new node is too deep for maxSize. */
    method Insert(key: int) returns (inserted: bool)
      requires Valid()
      modifies this
      ensures Valid()
      ensures inserted == TryInsertWithRoot(old(root), key).inserted
      ensures inserted <==> Find(old(root), key).Nil?
      ensures root == InsertPolicy(old(root), key, old(maxSize), old(alpha))
      ensures size == old(size) + (if inserted then 1 else 0)
      ensures maxSize == (if inserted then Max(old(maxSize), size) else old(maxSize))
      ensures alpha == old(alpha)
      ensures notifications ==
                old(notifications) + (if InsertTooDeep(old(root), key, old(maxSize), alpha) then 1 else 0)
      ensures old(IsBST(root)) ==> IsBST(root) && Keys(root) == old(Keys(root)) + {key}
    {
      var ins := TryInsertWithRoot(root, key);
      InsertPolicyKeys(root, key, maxSize, alpha);
      if !ins.inserted {
        return false;
      }
      ghost var before := root;
      ghost var m0 := maxSize;
      ghost var tooDeep := InsertTooDeep(root, key, maxSize, alpha);
      root := ins.tree;
      size := size + 1;
      maxSize := Max(maxSize, size);
      if ExceedsDepthBound(maxSize as real, |ins.path|, alpha) {
        assert tooDeep;
        notifications := notifications + 1;
        InsertRebuildsScapegoat(before, key, m0, alpha);
        var found := FindScapegoatInPath(ins.path, alpha);
        var k := ScapegoatIndex(ins.path, alpha).value;
        var parent := found.value.0;
        var rebuilt := RebuildWithRoot(found.value.1);
        PolicyAtScapegoat(before, key, m0, alpha, k);
        if parent.None? {
          root := rebuilt;
        } else {
          root := ReplaceAt(root, key, k, rebuilt);
        }
      } else {
        assert !tooDeep;
      }
      return true;
    }

    /** Removes a key; deleting the root's key, or shrinking to at most
        alpha * maxSize nodes, raises `TreeIsUnbalanced`, rebuilds the whole
        tree and resets maxSize to the size. */
    method Delete(key: int) returns (deleted: bool)
      requires Valid()
      modifies this
      ensures Valid()
      ensures deleted == TryDeleteWithRoot(old(root), key).deleted
      ensures deleted <==> Find(old(root), key).Node?
      ensures size == old(size) - (if deleted then 1 else 0)
      ensures alpha == old(alpha)
      ensures root == DeletePolicy(old(root), key, old(maxSize), alpha)
      ensures var rebuild := DeleteRebuilds(old(root), key, old(maxSize), alpha);
              && maxSize == (if rebuild then size else old(maxSize))
              && notifications == old(notifications) + (if rebuild then 1 else 0)
      ensures DeleteRebuilds(old(root), key, old(maxSize), alpha) ==> WeightBalanced(root, alpha)
      ensures old(IsBST(root)) ==> IsBST(root) && Keys(root) == old(Keys(root)) - {key}
    {
      DeletePolicyKeys(root, key, maxSize, alpha);
      if root.Nil? {
        return false;
      }
      var isRoot := root.key == key;
      var del := TryDeleteWithRoot(root, key);
      if !del.deleted {
        return false;
      }
      ghost var rebuild := DeleteRebuilds(root, key, maxSize, alpha);
      size := size - 1;
      if isRoot || AtMostShare(size, alpha, maxSize) {
        assert rebuild;
        notifications := notifications + 1;
        if del.tree.Nil? {
          root := Nil;
        } else {
          root := RebuildWithRoot(del.tree);
        }
        maxSize := size;
      } else {
        assert !rebuild;
        root := del.tree;
      }
      return true;
    }
  }
}
