/** Binary tree cells of the scapegoat tree (the `Node<T>` type) and the balance
    math over them: subtree size, in-order keys, the search-tree order and the
    alpha-weight-balance predicate. Keys are integers. */
module Trees {

  /** A node owns its two child slots; `Nil` is the empty slot (C# null). */
  datatype Tree = Nil | Node(left: Tree, key: int, right: Tree)

  function Leaf(key: int): Tree {
    Node(Nil, key, Nil)
  }

  /** `Node.GetSize`: the number of nodes of the subtree, computed on demand. */
  function Size(t: Tree): (n: nat)
    ensures n == 0 <==> t.Nil?
  {
    match t
    case Nil => 0
    case Node(l, _, r) => 1 + Size(l) + Size(r)
  }

  function Keys(t: Tree): set<int> {
    match t
    case Nil => {}
    case Node(l, k, r) => Keys(l) + {k} + Keys(r)
  }

  /** The keys in the order the node enumerator yields them (left, node, right). */
  function InOrder(t: Tree): seq<int> {
    match t
    case Nil => []
    case Node(l, k, r) => InOrder(l) + [k] + InOrder(r)
  }

  function Height(t: Tree): nat {
    match t
    case Nil => 0
    case Node(l, _, r) => 1 + (if Height(l) < Height(r) then Height(r) else Height(l))
  }

  function Max(a: nat, b: nat): nat {
    if a < b then b else a
  }

  ghost predicate StrictlySorted(s: seq<int>) {
    forall i, j :: 0 <= i < j < |s| ==> s[i] < s[j]
  }

  /** Binary-search-tree order: every key of a left subtree is smaller and every
      key of a right subtree larger than the node's key (no duplicates). */
  ghost predicate IsBST(t: Tree) {
    match t
    case Nil => true
    case Node(l, k, r) =>
      && IsBST(l) && IsBST(r)
      && (forall x :: x in Keys(l) ==> x < k)
      && (forall x :: x in Keys(r) ==> k < x)
  }

  /** The balance test at one node: each child subtree holds at most
      alpha times the node's subtree size. */
  predicate LocallyBalanced(t: Tree, alpha: real) {
    t.Nil? || (AtMostShare(Size(t.left), alpha, Size(t)) && AtMostShare(Size(t.right), alpha, Size(t)))
  }

  /** part <= alpha * whole */
  predicate AtMostShare(part: nat, alpha: real, whole: nat) {
    part as real <= alpha * whole as real
  }

  /** `Node.IsAlphaWeightBalanced`: the balance test holds at every node. */
  predicate WeightBalanced(t: Tree, alpha: real) {
    match t
    case Nil => true
    case Node(l, _, r) => LocallyBalanced(t, alpha) && WeightBalanced(l, alpha) && WeightBalanced(r, alpha)
  }

  /** s is t itself or lies below it. */
  ghost predicate SubtreeOf(s: Tree, t: Tree) {
    s == t || (t.Node? && (SubtreeOf(s, t.left) || SubtreeOf(s, t.right)))
  }

  /** The recursive balance check is the balance test at every node of the tree. */
  lemma {:induction false} WeightBalancedEverywhere(t: Tree, alpha: real)
    ensures WeightBalanced(t, alpha) <==> forall s :: SubtreeOf(s, t) ==> LocallyBalanced(s, alpha)
  {
    match t
    case Nil =>
      forall s | SubtreeOf(s, t) ensures LocallyBalanced(s, alpha) {
      }
    case Node(l, _, r) =>
      WeightBalancedEverywhere(l, alpha);
      WeightBalancedEverywhere(r, alpha);
      if WeightBalanced(t, alpha) {
        forall s | SubtreeOf(s, t) ensures LocallyBalanced(s, alpha) {
        }
      } else {
        assert SubtreeOf(t, t);
      }
  }

  function Pow2(n: nat): nat {
    if n == 0 then 1 else 2 * Pow2(n - 1)
  }

  /** The number of binary digits of n: the height of a minimum-height tree of n nodes. */
  function BitLength(n: nat): nat {
    if n == 0 then 0 else 1 + BitLength(n / 2)
  }

  /** The in-order sequence lists each node once, and exactly the keys of the tree. */
  lemma {:induction false} InOrderFacts(t: Tree)
    ensures |InOrder(t)| == Size(t)
    ensures forall x :: x in InOrder(t) <==> x in Keys(t)
  {
    match t
    case Nil =>
    case Node(l, k, r) =>
      InOrderFacts(l);
      InOrderFacts(r);
  }

  lemma SortedSplit(a: seq<int>, k: int, b: seq<int>)
    ensures StrictlySorted(a + [k] + b) <==>
              StrictlySorted(a) && StrictlySorted(b) &&
              (forall x :: x in a ==> x < k) && (forall x :: x in b ==> k < x)
  {
    if StrictlySorted(a + [k] + b) {
      SortedParts(a, k, b);
    }
    if StrictlySorted(a) && StrictlySorted(b) &&
       (forall x :: x in a ==> x < k) && (forall x :: x in b ==> k < x) {
      SortedJoin(a, k, b);
    }
  }

  lemma SortedParts(a: seq<int>, k: int, b: seq<int>)
    requires StrictlySorted(a + [k] + b)
    ensures StrictlySorted(a) && StrictlySorted(b)
    ensures (forall x :: x in a ==> x < k) && (forall x :: x in b ==> k < x)
  {
    var s := a + [k] + b;
    assert forall i :: 0 <= i < |a| ==> s[i] == a[i];
    assert forall i :: 0 <= i < |b| ==> s[|a| + 1 + i] == b[i];
    assert s[|a|] == k;
    forall x | x in a ensures x < k {
      var i :| 0 <= i < |a| && a[i] == x;
      assert s[i] == x;
    }
    forall x | x in b ensures k < x {
      var i :| 0 <= i < |b| && b[i] == x;
      assert s[|a| + 1 + i] == x;
    }
  }

  lemma SortedJoin(a: seq<int>, k: int, b: seq<int>)
    requires StrictlySorted(a) && StrictlySorted(b)
    requires (forall x :: x in a ==> x < k) && (forall x :: x in b ==> k < x)
    ensures StrictlySorted(a + [k] + b)
  {
    var s := a + [k] + b;
    forall i, j | 0 <= i < j < |s| ensures s[i] < s[j] {
      if j < |a| {
        assert s[i] == a[i] && s[j] == a[j];
      } else if i > |a| {
        assert s[i] == b[i - |a| - 1] && s[j] == b[j - |a| - 1];
      } else if i == |a| {
        assert s[i] == k && s[j] == b[j - |a| - 1];
        assert b[j - |a| - 1] in b;
      } else if j == |a| {
        assert s[i] == a[i] && s[j] == k;
        assert a[i] in a;
      } else {
        assert s[i] == a[i] && s[j] == b[j - |a| - 1];
        assert a[i] in a && b[j - |a| - 1] in b;
      }
    }
  }

  /** The search-tree order is exactly a strictly ascending enumeration. */
  lemma {:induction false} BSTIffSorted(t: Tree)
    ensures IsBST(t) <==> StrictlySorted(InOrder(t))
  {
    match t
    case Nil =>
    case Node(l, k, r) =>
      BSTIffSorted(l);
      BSTIffSorted(r);
      InOrderFacts(l);
      InOrderFacts(r);
      SortedSplit(InOrder(l), k, InOrder(r));
  }

  /** In a search tree the node count is the number of distinct keys. */
  lemma {:induction false} SizeIsKeyCount(t: Tree)
    requires IsBST(t)
    ensures |Keys(t)| == Size(t)
  {
    match t
    case Nil =>
    case Node(l, k, r) =>
      SizeIsKeyCount(l);
      SizeIsKeyCount(r);
      var lk, rk := Keys(l), Keys(r);
      KeysSeparated(l, k, r);
      DisjointUnionSize(lk, rk);
      DisjointUnionSize(lk + rk, {k});
      assert Keys(t) == (lk + rk) + {k};
  }

  /** In a search tree the two subtrees and the node's key share no key. */
  lemma KeysSeparated(l: Tree, k: int, r: Tree)
    requires IsBST(Node(l, k, r))
    ensures Keys(l) !! Keys(r) && k !in Keys(l) + Keys(r)
  {
    forall x | x in Keys(l) ensures x !in Keys(r) {
      assert x < k;
    }
  }

  lemma DisjointUnionSize(a: set<int>, b: set<int>)
    requires a !! b
    ensures |a + b| == |a| + |b|
  {
    assert a * b == {};
  }

  lemma ShareMonotone(part: nat, a: real, b: real, whole: nat)
    requires a <= b && AtMostShare(part, a, whole)
    ensures AtMostShare(part, b, whole)
  {
    var n := whole as real;
    assert a * n <= b * n by {
      assert (b - a) * n >= 0.0;
    }
  }

  /** A looser alpha admits every tree a tighter one admits. */
  lemma {:induction false} WeightBalancedMonotone(t: Tree, a: real, b: real)
    requires a <= b
    requires WeightBalanced(t, a)
    ensures WeightBalanced(t, b)
  {
    match t
    case Nil =>
    case Node(l, _, r) =>
      ShareMonotone(Size(l), a, b, Size(t));
      ShareMonotone(Size(r), a, b, Size(t));
      WeightBalancedMonotone(l, a, b);
      WeightBalancedMonotone(r, a, b);
  }

  /** A tree of height h holds fewer than 2^h nodes. */
  lemma {:induction false} SizeBelowPow2Height(t: Tree)
    ensures Size(t) < Pow2(Height(t))
  {
    match t
    case Nil =>
    case Node(l, _, r) =>
      SizeBelowPow2Height(l);
      SizeBelowPow2Height(r);
      Pow2Monotone(Height(l), Height(t) - 1);
      Pow2Monotone(Height(r), Height(t) - 1);
  }

  lemma {:induction false} Pow2Monotone(m: nat, n: nat)
    requires m <= n
    ensures Pow2(m) <= Pow2(n)
  {
    if m < n {
      Pow2Monotone(m, n - 1);
    }
  }

  /** 2^(BitLength(n) - 1) <= n < 2^BitLength(n). */
  lemma {:induction false} BitLengthBounds(n: nat)
    ensures n < Pow2(BitLength(n))
    ensures n > 0 ==> Pow2(BitLength(n) - 1) <= n
  {
    if n > 0 {
      BitLengthBounds(n / 2);
    }
  }

  lemma {:induction false} BitLengthMonotone(m: nat, n: nat)
    requires m <= n
    ensures BitLength(m) <= BitLength(n)
  {
    if m > 0 {
      BitLengthMonotone(m / 2, n / 2);
    }
  }

  /** No tree with n nodes is lower than BitLength(n). */
  lemma HeightAtLeastBitLength(t: Tree)
    ensures BitLength(Size(t)) <= Height(t)
  {
    SizeBelowPow2Height(t);
    BitLengthBounds(Size(t));
    if Height(t) < BitLength(Size(t)) {
      Pow2Monotone(Height(t), BitLength(Size(t)) - 1);
    }
  }
}
