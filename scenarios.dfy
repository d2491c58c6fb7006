/** Worked examples of the scapegoat tree: the concrete trees and outcomes its
    unit tests pin down, checked against the model. */
module Scenarios {
  import opened Wrappers
  import opened Trees
  import opened Implementation
  import opened Controller

  /** Inserts the keys one after another, as the fixtures build their trees. */
  function InsertAll(t: Tree, keys: seq<int>): Tree
    decreases |keys|
  {
    if |keys| == 0 then t else InsertAll(TryInsertWithRoot(t, keys[0]).tree, keys[1..])
  }

  lemma InsertAllStep(t: Tree, key: int, rest: seq<int>, next: Tree)
    requires TryInsertWithRoot(t, key).tree == next
    ensures InsertAll(t, [key] + rest) == InsertAll(next, rest)
  {
    assert ([key] + rest)[1..] == rest;
  }

  // ------------------------------------------------------------ algorithm layer

  /** A search returns the left or the right child holding the key, and Nil when
      the key is absent on the side searched. */
  lemma SearchFixtures()
    ensures var t := Node(Leaf(-1), 1, Leaf(2));
            Find(t, -1) == t.left && Find(t, 2) == t.right
    ensures Find(Node(Nil, 1, Leaf(2)), -1) == Nil
    ensures Find(Node(Leaf(-1), 1, Nil), 2) == Nil
  {
  }

  /** A smaller key goes left, a larger one right, each with the root alone on
      the path; a duplicate leaves the tree alone with the root on the path. */
  lemma InsertFixtures()
    ensures TryInsertWithRoot(Leaf(3), 1) == Insertion(true, Node(Leaf(1), 3, Nil), [Node(Leaf(1), 3, Nil)])
    ensures TryInsertWithRoot(Leaf(3), 4) == Insertion(true, Node(Nil, 3, Leaf(4)), [Node(Nil, 3, Leaf(4))])
    ensures TryInsertWithRoot(Leaf(3), 3) == Insertion(false, Leaf(3), [Leaf(3)])
  {
  }

  /** Deleting a leaf empties its slot. */
  lemma DeleteLeftLeafFixture()
    ensures TryDeleteWithRoot(Node(Leaf(-1), 1, Leaf(2)), -1) == Deletion(true, Node(Nil, 1, Leaf(2)))
  {
  }

  lemma DeleteRightLeafFixture()
    ensures TryDeleteWithRoot(Node(Leaf(-1), 1, Leaf(2)), 2) == Deletion(true, Node(Leaf(-1), 1, Nil))
  {
  }

  /** A key that is absent, on either side, is reported as not deleted. */
  lemma DeleteAbsentFixture()
    ensures !TryDeleteWithRoot(Node(Leaf(-1), 1, Leaf(2)), -2).deleted
    ensures !TryDeleteWithRoot(Node(Leaf(-1), 1, Leaf(2)), 3).deleted
  {
  }

  /** Deleting a node with one child promotes the child. */
  lemma DeleteOneChildFixtures()
    ensures TryDeleteWithRoot(Node(Node(Leaf(-2), -1, Nil), 1, Leaf(2)), -1).tree == Node(Leaf(-2), 1, Leaf(2))
    ensures TryDeleteWithRoot(Node(Node(Nil, -1, Leaf(0)), 1, Leaf(2)), -1).tree == Node(Leaf(0), 1, Leaf(2))
  {
  }

  /** Deleting a node with two children copies in its in-order predecessor:
      deleting 1 copies in 0. */
  lemma DeleteTwoChildrenFixture()
    ensures TryDeleteWithRoot(Node(Node(Node(Leaf(-2), -1, Leaf(0)), 1, Leaf(2)), 3, Leaf(4)), 1).tree
            == Node(Node(Node(Leaf(-2), -1, Nil), 0, Leaf(2)), 3, Leaf(4))
  {
    assert RemoveMax(Node(Leaf(-2), -1, Leaf(0))) == Node(Leaf(-2), -1, Nil);
  }

  /** Deleting 10 copies in 9. */
  lemma DeleteTwoChildrenRightFixture()
    ensures TryDeleteWithRoot(Node(Leaf(1), 3, Node(Node(Leaf(7), 8, Leaf(9)), 10, Leaf(11))), 10).tree
            == Node(Leaf(1), 3, Node(Node(Leaf(7), 8, Nil), 9, Leaf(11)))
  {
    assert RemoveMax(Node(Leaf(7), 8, Leaf(9))) == Node(Leaf(7), 8, Nil);
  }

  /** Root 8 after inserting 1, 13, 10, 20, 19, 22. */
  const Unbalanced57 := Node(Leaf(1), 8, Node(Leaf(10), 13, Node(Leaf(19), 20, Leaf(22))))
  /** Root 3 after inserting 2, 1, 5, 6. */
  const Small := Node(Node(Leaf(1), 2, Nil), 3, Node(Nil, 5, Leaf(6)))
  /** Root 19 after inserting 10, 8, 13, 1, 22, 20. */
  const Balanced57 := Node(Node(Node(Leaf(1), 8, Nil), 10, Leaf(13)), 19, Node(Leaf(20), 22, Nil))

  lemma Unbalanced57Built()
    ensures InsertAll(Leaf(8), [1, 13, 10, 20, 19, 22]) == Unbalanced57
  {
    Unbalanced57Link1();
    Unbalanced57Link2();
    Unbalanced57Link3();
    Unbalanced57Link4();
    Unbalanced57Link5();
    Unbalanced57Link6();
    InsertAllStep(Leaf(8), 1, [13, 10, 20, 19, 22], Node(Leaf(1), 8, Nil));
    InsertAllStep(Node(Leaf(1), 8, Nil), 13, [10, 20, 19, 22], Node(Leaf(1), 8, Leaf(13)));
    InsertAllStep(Node(Leaf(1), 8, Leaf(13)), 10, [20, 19, 22], Node(Leaf(1), 8, Node(Leaf(10), 13, Nil)));
    InsertAllStep(Node(Leaf(1), 8, Node(Leaf(10), 13, Nil)), 20, [19, 22], Node(Leaf(1), 8, Node(Leaf(10), 13, Leaf(20))));
    InsertAllStep(Node(Leaf(1), 8, Node(Leaf(10), 13, Leaf(20))), 19, [22], Node(Leaf(1), 8, Node(Leaf(10), 13, Node(Leaf(19), 20, Nil))));
    InsertAllStep(Node(Leaf(1), 8, Node(Leaf(10), 13, Node(Leaf(19), 20, Nil))), 22, [], Unbalanced57);
  }

  lemma Unbalanced57Link1()
    ensures TryInsertWithRoot(Leaf(8), 1).tree == Node(Leaf(1), 8, Nil)
  {
  }

  lemma Unbalanced57Link2()
    ensures TryInsertWithRoot(Node(Leaf(1), 8, Nil), 13).tree == Node(Leaf(1), 8, Leaf(13))
  {
  }

  lemma Unbalanced57Link3()
    ensures TryInsertWithRoot(Node(Leaf(1), 8, Leaf(13)), 10).tree == Node(Leaf(1), 8, Node(Leaf(10), 13, Nil))
  {
  }

  lemma Unbalanced57Link4()
    ensures TryInsertWithRoot(Node(Leaf(1), 8, Node(Leaf(10), 13, Nil)), 20).tree == Node(Leaf(1), 8, Node(Leaf(10), 13, Leaf(20)))
  {
  }

  lemma Unbalanced57Link5()
    ensures TryInsertWithRoot(Node(Leaf(1), 8, Node(Leaf(10), 13, Leaf(20))), 19).tree == Node(Leaf(1), 8, Node(Leaf(10), 13, Node(Leaf(19), 20, Nil)))
  {
  }

  lemma Unbalanced57Link6()
    ensures TryInsertWithRoot(Node(Leaf(1), 8, Node(Leaf(10), 13, Node(Leaf(19), 20, Nil))), 22).tree == Unbalanced57
  {
  }

  lemma SmallBuilt()
    ensures InsertAll(Leaf(3), [2, 1, 5, 6]) == Small
  {
    SmallLink1();
    SmallLink2();
    SmallLink3();
    SmallLink4();
    InsertAllStep(Leaf(3), 2, [1, 5, 6], Node(Leaf(2), 3, Nil));
    InsertAllStep(Node(Leaf(2), 3, Nil), 1, [5, 6], Node(Node(Leaf(1), 2, Nil), 3, Nil));
    InsertAllStep(Node(Node(Leaf(1), 2, Nil), 3, Nil), 5, [6], Node(Node(Leaf(1), 2, Nil), 3, Leaf(5)));
    InsertAllStep(Node(Node(Leaf(1), 2, Nil), 3, Leaf(5)), 6, [], Small);
  }

  lemma SmallLink1()
    ensures TryInsertWithRoot(Leaf(3), 2).tree == Node(Leaf(2), 3, Nil)
  {
  }

  lemma SmallLink2()
    ensures TryInsertWithRoot(Node(Leaf(2), 3, Nil), 1).tree == Node(Node(Leaf(1), 2, Nil), 3, Nil)
  {
  }

  lemma SmallLink3()
    ensures TryInsertWithRoot(Node(Node(Leaf(1), 2, Nil), 3, Nil), 5).tree == Node(Node(Leaf(1), 2, Nil), 3, Leaf(5))
  {
  }

  lemma SmallLink4()
    ensures TryInsertWithRoot(Node(Node(Leaf(1), 2, Nil), 3, Leaf(5)), 6).tree == Small
  {
  }

  lemma Balanced57Built()
    ensures InsertAll(Leaf(19), [10, 8, 13, 1, 22, 20]) == Balanced57
  {
    Balanced57Link1();
    Balanced57Link2();
    Balanced57Link3();
    Balanced57Link4();
    Balanced57Link5();
    Balanced57Link6();
    InsertAllStep(Leaf(19), 10, [8, 13, 1, 22, 20], Node(Leaf(10), 19, Nil));
    InsertAllStep(Node(Leaf(10), 19, Nil), 8, [13, 1, 22, 20], Node(Node(Leaf(8), 10, Nil), 19, Nil));
    InsertAllStep(Node(Node(Leaf(8), 10, Nil), 19, Nil), 13, [1, 22, 20], Node(Node(Leaf(8), 10, Leaf(13)), 19, Nil));
    InsertAllStep(Node(Node(Leaf(8), 10, Leaf(13)), 19, Nil), 1, [22, 20], Node(Node(Node(Leaf(1), 8, Nil), 10, Leaf(13)), 19, Nil));
    InsertAllStep(Node(Node(Node(Leaf(1), 8, Nil), 10, Leaf(13)), 19, Nil), 22, [20], Node(Node(Node(Leaf(1), 8, Nil), 10, Leaf(13)), 19, Leaf(22)));
    InsertAllStep(Node(Node(Node(Leaf(1), 8, Nil), 10, Leaf(13)), 19, Leaf(22)), 20, [], Balanced57);
  }

  lemma Balanced57Link1()
    ensures TryInsertWithRoot(Leaf(19), 10).tree == Node(Leaf(10), 19, Nil)
  {
  }

  lemma Balanced57Link2()
    ensures TryInsertWithRoot(Node(Leaf(10), 19, Nil), 8).tree == Node(Node(Leaf(8), 10, Nil), 19, Nil)
  {
  }

  lemma Balanced57Link3()
    ensures TryInsertWithRoot(Node(Node(Leaf(8), 10, Nil), 19, Nil), 13).tree == Node(Node(Leaf(8), 10, Leaf(13)), 19, Nil)
  {
  }

  lemma Balanced57Link4()
    ensures TryInsertWithRoot(Node(Node(Leaf(8), 10, Leaf(13)), 19, Nil), 1).tree == Node(Node(Node(Leaf(1), 8, Nil), 10, Leaf(13)), 19, Nil)
  {
  }

  lemma Balanced57Link5()
    ensures TryInsertWithRoot(Node(Node(Node(Leaf(1), 8, Nil), 10, Leaf(13)), 19, Nil), 22).tree == Node(Node(Node(Leaf(1), 8, Nil), 10, Leaf(13)), 19, Leaf(22))
  {
  }

  lemma Balanced57Link6()
    ensures TryInsertWithRoot(Node(Node(Node(Leaf(1), 8, Nil), 10, Leaf(13)), 19, Leaf(22)), 20).tree == Balanced57
  {
  }

  /** The ancestors of 29 in the 0.57 fixture: 8, 13, 20, 22, of sizes 8, 6, 4, 2. */
  lemma PathOf29()
    ensures TryInsertWithRoot(Unbalanced57, 29).path ==
            [ Node(Leaf(1), 8, Node(Leaf(10), 13, Node(Leaf(19), 20, Node(Nil, 22, Leaf(29))))),
              Node(Leaf(10), 13, Node(Leaf(19), 20, Node(Nil, 22, Leaf(29)))),
              Node(Leaf(19), 20, Node(Nil, 22, Leaf(29))),
              Node(Nil, 22, Leaf(29)) ]
  {
  }

  /** Sizes 2, 4, 6 pass the bound at depths 1, 2, 3 for alpha = 0.57; size 8
      fails it at depth 4. */
  lemma DepthBounds57()
    ensures !ExceedsDepthBound(2.0, 1, 0.57)
    ensures !ExceedsDepthBound(4.0, 2, 0.57)
    ensures !ExceedsDepthBound(6.0, 3, 0.57)
    ensures ExceedsDepthBound(8.0, 4, 0.57)
  {
    assert ExceedsDepthBound(2.0, 1, 0.57) == ExceedsDepthBound(1.14, 0, 0.57);
    assert ExceedsDepthBound(4.0, 2, 0.57) == ExceedsDepthBound(2.28, 1, 0.57);
    assert ExceedsDepthBound(2.28, 1, 0.57) == ExceedsDepthBound(1.2996, 0, 0.57);
    assert ExceedsDepthBound(6.0, 3, 0.57) == ExceedsDepthBound(3.42, 2, 0.57);
    assert ExceedsDepthBound(3.42, 2, 0.57) == ExceedsDepthBound(1.9494, 1, 0.57);
    assert ExceedsDepthBound(1.9494, 1, 0.57) == ExceedsDepthBound(1.111158, 0, 0.57);
    assert ExceedsDepthBound(8.0, 4, 0.57) == ExceedsDepthBound(4.56, 3, 0.57);
    assert ExceedsDepthBound(4.56, 3, 0.57) == ExceedsDepthBound(2.5992, 2, 0.57);
    assert ExceedsDepthBound(2.5992, 2, 0.57) == ExceedsDepthBound(1.481544, 1, 0.57);
    assert ExceedsDepthBound(1.481544, 1, 0.57) == ExceedsDepthBound(0.84448008, 0, 0.57);
  }

  /** With alpha = 0.57 the depth bound picks 8, the root, on the path of 29. */
  lemma ScapegoatFixture57()
    ensures var path := TryInsertWithRoot(Unbalanced57, 29).path;
            |path| == 4 && path[0].key == 8 && ScapegoatIndex(path, 0.57) == Some(0)
  {
    PathOf29();
    ScapegoatOnPath29();
  }

  lemma ScapegoatOnPath29()
    ensures ScapegoatIndex([ Node(Leaf(1), 8, Node(Leaf(10), 13, Node(Leaf(19), 20, Node(Nil, 22, Leaf(29))))),
                             Node(Leaf(10), 13, Node(Leaf(19), 20, Node(Nil, 22, Leaf(29)))),
                             Node(Leaf(19), 20, Node(Nil, 22, Leaf(29))),
                             Node(Nil, 22, Leaf(29)) ], 0.57) == Some(0)
  {
    SizesOnPath29();
    DepthBounds57();
    RootScapegoatOfFour([ Node(Leaf(1), 8, Node(Leaf(10), 13, Node(Leaf(19), 20, Node(Nil, 22, Leaf(29))))),
                          Node(Leaf(10), 13, Node(Leaf(19), 20, Node(Nil, 22, Leaf(29)))),
                          Node(Leaf(19), 20, Node(Nil, 22, Leaf(29))),
                          Node(Nil, 22, Leaf(29)) ], 0.57);
  }

  lemma SizesOnPath29()
    ensures Size(Node(Leaf(1), 8, Node(Leaf(10), 13, Node(Leaf(19), 20, Node(Nil, 22, Leaf(29)))))) == 8
    ensures Size(Node(Leaf(10), 13, Node(Leaf(19), 20, Node(Nil, 22, Leaf(29))))) == 6
    ensures Size(Node(Leaf(19), 20, Node(Nil, 22, Leaf(29)))) == 4
    ensures Size(Node(Nil, 22, Leaf(29))) == 2
  {
  }

  /** On a four-entry path where only the root fails the bound, the root is the
      scapegoat. */
  lemma RootScapegoatOfFour(path: seq<Tree>, alpha: real)
    requires |path| == 4
    requires !ExceedsDepthBound(Size(path[3]) as real, 1, alpha)
    requires !ExceedsDepthBound(Size(path[2]) as real, 2, alpha)
    requires !ExceedsDepthBound(Size(path[1]) as real, 3, alpha)
    requires ExceedsDepthBound(Size(path[0]) as real, 4, alpha)
    ensures ScapegoatIndex(path, alpha) == Some(0)
  {
    assert ScapegoatIndexBelow(path, alpha, 4) == ScapegoatIndexBelow(path, alpha, 3);
    assert ScapegoatIndexBelow(path, alpha, 3) == ScapegoatIndexBelow(path, alpha, 2);
    assert ScapegoatIndexBelow(path, alpha, 2) == ScapegoatIndexBelow(path, alpha, 1);
  }

  /** Both 8 and 13 hold a child heavier than 0.57 times their size, so a rule
      choosing the weight violator nearest the new node would pick 13. */
  lemma TwoViolatorsFixture57()
    ensures var path := TryInsertWithRoot(Unbalanced57, 29).path;
            path[1].key == 13 && !LocallyBalanced(path[0], 0.57) && !LocallyBalanced(path[1], 0.57)
  {
    PathOf29();
  }

  /** On the balanced configurations no ancestor fails the bound, so discovery
      reports InvalidOperation. */
  lemma NoScapegoatFixture57()
    ensures ScapegoatIndex(TryInsertWithRoot(Balanced57, 29).path, 0.57).None?
  {
    PathOf29Balanced();
    SizesOnPath29Balanced();
    ShallowBounds57();
    NoScapegoatOnTwo([ Node(Node(Node(Leaf(1), 8, Nil), 10, Leaf(13)), 19, Node(Leaf(20), 22, Leaf(29))),
                       Node(Leaf(20), 22, Leaf(29)) ], 0.57);
  }

  lemma SizesOnPath29Balanced()
    ensures Size(Node(Leaf(20), 22, Leaf(29))) == 3
    ensures Size(Node(Node(Node(Leaf(1), 8, Nil), 10, Leaf(13)), 19, Node(Leaf(20), 22, Leaf(29)))) == 8
  {
  }

  /** Size 3 passes the bound at depth 1 and size 8 at depth 2, for alpha = 0.57. */
  lemma ShallowBounds57()
    ensures !ExceedsDepthBound(3.0, 1, 0.57) && !ExceedsDepthBound(8.0, 2, 0.57)
  {
    assert ExceedsDepthBound(3.0, 1, 0.57) == ExceedsDepthBound(1.71, 0, 0.57);
    assert ExceedsDepthBound(8.0, 2, 0.57) == ExceedsDepthBound(4.56, 1, 0.57);
    assert ExceedsDepthBound(4.56, 1, 0.57) == ExceedsDepthBound(2.5992, 0, 0.57);
  }

  /** In the balanced configuration 29 goes below 22, two levels down. */
  lemma PathOf29Balanced()
    ensures TryInsertWithRoot(Balanced57, 29).path ==
            [ Node(Node(Node(Leaf(1), 8, Nil), 10, Leaf(13)), 19, Node(Leaf(20), 22, Leaf(29))),
              Node(Leaf(20), 22, Leaf(29)) ]
  {
    assert TryInsertWithRoot(Node(Leaf(20), 22, Nil), 29) ==
           Insertion(true, Node(Leaf(20), 22, Leaf(29)), [Node(Leaf(20), 22, Leaf(29))]);
  }

  /** 6 lands below 5, two levels down, completing the scenario tree. */
  lemma PathOfSix()
    ensures TryInsertWithRoot(Node(Node(Leaf(1), 2, Nil), 3, Leaf(5)), 6) ==
            Insertion(true, Small, [Small, Node(Nil, 5, Leaf(6))])
  {
    assert TryInsertWithRoot(Leaf(5), 6) == Insertion(true, Node(Nil, 5, Leaf(6)), [Node(Nil, 5, Leaf(6))]);
  }

  lemma NoScapegoatFixtureHalf()
    ensures ScapegoatIndex(TryInsertWithRoot(Node(Node(Leaf(1), 2, Nil), 3, Leaf(5)), 6).path, 0.5).None?
  {
    PathOfSix();
    SizeOfSmall();
    DepthBoundsHalf();
    assert Size(Node(Nil, 5, Leaf(6))) == 2;
    NoScapegoatOnTwo([Small, Node(Nil, 5, Leaf(6))], 0.5);
  }

  /** A two-entry path whose entries both pass the bound has no scapegoat. */
  lemma NoScapegoatOnTwo(path: seq<Tree>, alpha: real)
    requires |path| == 2
    requires !ExceedsDepthBound(Size(path[1]) as real, 1, alpha)
    requires !ExceedsDepthBound(Size(path[0]) as real, 2, alpha)
    ensures ScapegoatIndex(path, alpha).None?
  {
  }

  /** Rebuilding [-1, 1, 2, 3, 5, 6] puts 3 at the root with 1 as its left child. */
  lemma RebuildFixture()
    ensures Rebuild([-1, 1, 2, 3, 5, 6]) == Node(Node(Leaf(-1), 1, Leaf(2)), 3, Node(Leaf(5), 6, Nil))
  {
  }

  /** The left-leaning six-node tree is not 1/2-balanced; its rebuild puts 3
      at the root and 1 as its left child. */
  lemma RebuildWithRootFixture()
    ensures var t := Node(Node(Node(Leaf(-1), 1, Nil), 2, Nil), 3, Node(Nil, 5, Leaf(6)));
            Rebalanced(t) == Node(Node(Leaf(-1), 1, Leaf(2)), 3, Node(Leaf(5), 6, Nil))
  {
    LeftLeaningInOrder();
    RebuildFixture();
  }

  lemma LeftLeaningInOrder()
    ensures InOrder(Node(Node(Node(Leaf(-1), 1, Nil), 2, Nil), 3, Node(Nil, 5, Leaf(6)))) == [-1, 1, 2, 3, 5, 6]
  {
  }

  lemma RebuildWithRootBalances()
    ensures !WeightBalanced(Node(Node(Node(Leaf(-1), 1, Nil), 2, Nil), 3, Node(Nil, 5, Leaf(6))), 0.5)
    ensures WeightBalanced(Node(Node(Leaf(-1), 1, Leaf(2)), 3, Node(Leaf(5), 6, Nil)), 0.5)
  {
  }

  /** An empty range is refused. */
  lemma EmptyRangeFixture()
    ensures RebuildFromList([], 1, 0) == Failure(InvalidArgument)
  {
  }

  // ------------------------------------------------------------ controller

  /** Bound facts for alpha 1/2: sizes 2 and 3 pass at depth 1, sizes 4 and 5
      at depth 2; size 3 fails at depth 2 and size 6 at depth 3. */
  lemma DepthBoundsHalf()
    ensures !ExceedsDepthBound(2.0, 1, 0.5) && !ExceedsDepthBound(3.0, 1, 0.5)
    ensures !ExceedsDepthBound(4.0, 2, 0.5) && !ExceedsDepthBound(5.0, 2, 0.5)
    ensures ExceedsDepthBound(3.0, 2, 0.5)
    ensures ExceedsDepthBound(6.0, 3, 0.5)
  {
    assert ExceedsDepthBound(2.0, 1, 0.5) == ExceedsDepthBound(1.0, 0, 0.5);
    assert ExceedsDepthBound(3.0, 1, 0.5) == ExceedsDepthBound(1.5, 0, 0.5);
    assert ExceedsDepthBound(4.0, 2, 0.5) == ExceedsDepthBound(2.0, 1, 0.5);
    assert ExceedsDepthBound(5.0, 2, 0.5) == ExceedsDepthBound(2.5, 1, 0.5);
    assert ExceedsDepthBound(2.5, 1, 0.5) == ExceedsDepthBound(1.25, 0, 0.5);
    assert ExceedsDepthBound(3.0, 2, 0.5) == ExceedsDepthBound(1.5, 1, 0.5);
    assert ExceedsDepthBound(1.5, 1, 0.5) == ExceedsDepthBound(0.75, 0, 0.5);
    assert ExceedsDepthBound(6.0, 3, 0.5) == ExceedsDepthBound(3.0, 2, 0.5);
  }

  /** The sizes of the trees of the insertion scenario under root 3. */
  lemma SizesUnder3()
    ensures Size(Leaf(3)) == 1 && Size(Node(Leaf(2), 3, Nil)) == 2
    ensures Size(Node(Leaf(2), 3, Leaf(5))) == 3
    ensures Size(Node(Node(Leaf(1), 2, Nil), 3, Leaf(5))) == 4
  {
  }

  lemma HeightsUnder3()
    ensures Height(Leaf(3)) == 1 && Height(Node(Leaf(2), 3, Nil)) == 2
    ensures Height(Node(Leaf(2), 3, Leaf(5))) == 2
  {
  }

  lemma SizeOfSmall()
    ensures Size(Small) == 5
  {
  }

  /** Root 3 with alpha 1/2: inserting 2 raises nothing and links 2 in as a leaf. */
  lemma QuietInsertTwo()
    ensures !InsertTooDeep(Leaf(3), 2, 1, 0.5)
    ensures InsertPolicy(Leaf(3), 2, 1, 0.5) == Node(Leaf(2), 3, Nil)
  {
    DepthBoundsHalf();
    SizesUnder3();
    HeightsUnder3();
    InsertQuietWhenShallow(Leaf(3), 2, 1, 0.5);
  }

  /** Then inserting 5 raises nothing either. */
  lemma QuietInsertFive()
    ensures !InsertTooDeep(Node(Leaf(2), 3, Nil), 5, 2, 0.5)
    ensures InsertPolicy(Node(Leaf(2), 3, Nil), 5, 2, 0.5) == Node(Leaf(2), 3, Leaf(5))
  {
    DepthBoundsHalf();
    SizesUnder3();
    assert TryInsertWithRoot(Node(Leaf(2), 3, Nil), 5) ==
           Insertion(true, Node(Leaf(2), 3, Leaf(5)), [Node(Leaf(2), 3, Leaf(5))]);
    QuietStep(Node(Leaf(2), 3, Nil), 5, 2, 0.5);
  }

  /** Then inserting 1 raises nothing. */
  lemma QuietInsertOne()
    ensures !InsertTooDeep(Node(Leaf(2), 3, Leaf(5)), 1, 3, 0.5)
    ensures InsertPolicy(Node(Leaf(2), 3, Leaf(5)), 1, 3, 0.5) == Node(Node(Leaf(1), 2, Nil), 3, Leaf(5))
  {
    ThreeShape();
    DepthBoundsHalf();
    LinkOne();
    InsertQuietWhenShallow(Node(Leaf(2), 3, Leaf(5)), 1, 3, 0.5);
  }

  lemma ThreeShape()
    ensures Size(Node(Leaf(2), 3, Leaf(5))) == 3 && Height(Node(Leaf(2), 3, Leaf(5))) == 2
  {
  }

  lemma LinkOne()
    ensures TryInsertWithRoot(Node(Leaf(2), 3, Leaf(5)), 1).tree == Node(Node(Leaf(1), 2, Nil), 3, Leaf(5))
  {
  }

  /** The fourth insertion, of 6, lands two levels down, which the bound for
      five keys still allows. */
  lemma QuietInsertSix()
    ensures !InsertTooDeep(Node(Node(Leaf(1), 2, Nil), 3, Leaf(5)), 6, 4, 0.5)
    ensures InsertPolicy(Node(Node(Leaf(1), 2, Nil), 3, Leaf(5)), 6, 4, 0.5) == Small
  {
    PathOfSix();
    DepthBoundsHalf();
    SizesUnder3();
    QuietStep(Node(Node(Leaf(1), 2, Nil), 3, Leaf(5)), 6, 4, 0.5);
  }

  /** An insertion whose new node passes the bound for the new maxSize changes
      nothing beyond linking the leaf in. */
  lemma QuietStep(t: Tree, key: int, maxSize: nat, alpha: real)
    requires TryInsertWithRoot(t, key).inserted
    requires !ExceedsDepthBound(Max(maxSize, Size(t) + 1) as real, |TryInsertWithRoot(t, key).path|, alpha)
    ensures !InsertTooDeep(t, key, maxSize, alpha)
    ensures InsertPolicy(t, key, maxSize, alpha) == TryInsertWithRoot(t, key).tree
  {
  }

  /** On a three-entry path whose last two subtrees hold 3 and 2 nodes the
      scapegoat for alpha 1/2 is the middle entry. */
  lemma MiddleScapegoat(path: seq<Tree>)
    requires |path| == 3 && Size(path[1]) == 3 && Size(path[2]) == 2
    ensures ScapegoatIndex(path, 0.5) == Some(1)
  {
    DepthBoundsHalf();
    assert ScapegoatIndexBelow(path, 0.5, 3) == ScapegoatIndexBelow(path, 0.5, 2);
  }

  /** -1 lands below 1, three levels down, with ancestors 3, 2 and 1. */
  lemma PathOfMinusOne()
    ensures TryInsertWithRoot(Small, -1) ==
            Insertion(true, Node(Node(Node(Leaf(-1), 1, Nil), 2, Nil), 3, Node(Nil, 5, Leaf(6))),
                      [ Node(Node(Node(Leaf(-1), 1, Nil), 2, Nil), 3, Node(Nil, 5, Leaf(6))),
                        Node(Node(Leaf(-1), 1, Nil), 2, Nil),
                        Node(Leaf(-1), 1, Nil) ])
  {
    assert TryInsertWithRoot(Nil, -1) == Insertion(true, Leaf(-1), []);
    assert TryInsertWithRoot(Leaf(1), -1) == Insertion(true, Node(Leaf(-1), 1, Nil), [Node(Leaf(-1), 1, Nil)]);
    assert TryInsertWithRoot(Node(Leaf(1), 2, Nil), -1) ==
           Insertion(true, Node(Node(Leaf(-1), 1, Nil), 2, Nil),
                     [Node(Node(Leaf(-1), 1, Nil), 2, Nil), Node(Leaf(-1), 1, Nil)]);
  }

  /** 7 lands below 6, three levels down, with ancestors 3, 5 and 6. */
  lemma PathOfSeven()
    ensures TryInsertWithRoot(Small, 7) ==
            Insertion(true, Node(Node(Leaf(1), 2, Nil), 3, Node(Nil, 5, Node(Nil, 6, Leaf(7)))),
                      [ Node(Node(Leaf(1), 2, Nil), 3, Node(Nil, 5, Node(Nil, 6, Leaf(7)))),
                        Node(Nil, 5, Node(Nil, 6, Leaf(7))),
                        Node(Nil, 6, Leaf(7)) ])
  {
    assert TryInsertWithRoot(Nil, 7) == Insertion(true, Leaf(7), []);
    assert TryInsertWithRoot(Leaf(6), 7) == Insertion(true, Node(Nil, 6, Leaf(7)), [Node(Nil, 6, Leaf(7))]);
    assert TryInsertWithRoot(Node(Nil, 5, Leaf(6)), 7) ==
           Insertion(true, Node(Nil, 5, Node(Nil, 6, Leaf(7))),
                     [Node(Nil, 5, Node(Nil, 6, Leaf(7))), Node(Nil, 6, Leaf(7))]);
  }

  /** A three-node chain is rebuilt around its middle key. */
  lemma ChainOfThreeRebuilt(a: int, b: int, c: int, t: Tree)
    requires InOrder(t) == [a, b, c]
    ensures Rebalanced(t) == Node(Leaf(a), b, Leaf(c))
  {
    var s := [a, b, c];
    assert s[..1] == [a] && s[2..] == [c];
    assert s[1] == b;
    assert Rebuild([a]) == Leaf(a) by {
      assert [a][..0] == [] && [a][1..] == [];
    }
    assert Rebuild([c]) == Leaf(c) by {
      assert [c][..0] == [] && [c][1..] == [];
    }
  }

  /** The two scapegoats of the scenario and the entries below them. */
  lemma ScapegoatsOfSmall()
    ensures InOrder(Node(Node(Leaf(-1), 1, Nil), 2, Nil)) == [-1, 1, 2]
    ensures InOrder(Node(Nil, 5, Node(Nil, 6, Leaf(7)))) == [5, 6, 7]
    ensures Size(Node(Node(Leaf(-1), 1, Nil), 2, Nil)) == 3 && Size(Node(Leaf(-1), 1, Nil)) == 2
    ensures Size(Node(Nil, 5, Node(Nil, 6, Leaf(7)))) == 3 && Size(Node(Nil, 6, Leaf(7))) == 2
  {
    assert InOrder(Node(Leaf(-1), 1, Nil)) == [-1, 1];
    assert InOrder(Node(Nil, 6, Leaf(7))) == [6, 7];
  }

  /** Inserting -1 into the scenario tree of five keys goes three levels down,
      deeper than the bound allows: the event is raised. */
  lemma DeepInsertMinusOne()
    ensures InsertTooDeep(Small, -1, 5, 0.5)
  {
    PathOfMinusOne();
    DepthBoundsHalf();
    SizeOfSmall();
  }

  /** The scapegoat of the insertion of -1 is 2, one step below the root. */
  lemma ScapegoatOfMinusOne()
    ensures ScapegoatIndex(TryInsertWithRoot(Small, -1).path, 0.5) == Some(1)
  {
    PathOfMinusOne();
    ScapegoatsOfSmall();
    MiddleScapegoat([ Node(Node(Node(Leaf(-1), 1, Nil), 2, Nil), 3, Node(Nil, 5, Leaf(6))),
                      Node(Node(Leaf(-1), 1, Nil), 2, Nil),
                      Node(Leaf(-1), 1, Nil) ]);
  }

  /** The scapegoat 2 is rebuilt into 1 over -1 and 2; six keys remain. */
  lemma DeepInsertMinusOneRebuilds()
    ensures InsertPolicy(Small, -1, 5, 0.5) == Node(Node(Leaf(-1), 1, Leaf(2)), 3, Node(Nil, 5, Leaf(6)))
  {
    DeepInsertMinusOne();
    ScapegoatOfMinusOne();
    PolicyAtScapegoat(Small, -1, 5, 0.5, 1);
    PathOfMinusOne();
    var two := Node(Node(Leaf(-1), 1, Nil), 2, Nil);
    ScapegoatsOfSmall();
    ChainOfThreeRebuilt(-1, 1, 2, two);
    SpliceLeft(two, 3, Node(Nil, 5, Leaf(6)), -1, Node(Leaf(-1), 1, Leaf(2)));
  }

  /** Inserting 7 instead is too deep as well. */
  lemma DeepInsertSeven()
    ensures InsertTooDeep(Small, 7, 5, 0.5)
  {
    PathOfSeven();
    DepthBoundsHalf();
    SizeOfSmall();
  }

  /** The scapegoat of the insertion of 7 is 5, one step below the root. */
  lemma ScapegoatOfSeven()
    ensures ScapegoatIndex(TryInsertWithRoot(Small, 7).path, 0.5) == Some(1)
  {
    PathOfSeven();
    ScapegoatsOfSmall();
    MiddleScapegoat([ Node(Node(Leaf(1), 2, Nil), 3, Node(Nil, 5, Node(Nil, 6, Leaf(7)))),
                      Node(Nil, 5, Node(Nil, 6, Leaf(7))),
                      Node(Nil, 6, Leaf(7)) ]);
  }

  /** The scapegoat 5 is rebuilt into 6 over 5 and 7. */
  lemma DeepInsertSevenRebuilds()
    ensures InsertPolicy(Small, 7, 5, 0.5) == Node(Node(Leaf(1), 2, Nil), 3, Node(Leaf(5), 6, Leaf(7)))
  {
    DeepInsertSeven();
    ScapegoatOfSeven();
    PolicyAtScapegoat(Small, 7, 5, 0.5, 1);
    PathOfSeven();
    var five := Node(Nil, 5, Node(Nil, 6, Leaf(7)));
    ScapegoatsOfSmall();
    ChainOfThreeRebuilt(5, 6, 7, five);
    SpliceRight(Node(Leaf(1), 2, Nil), 3, five, 7, Node(Leaf(5), 6, Leaf(7)));
  }

  /** Both outcomes of the deep insertion pass the balance check for alpha 1/2. */
  lemma DeepInsertMinusOneBalances()
    ensures var r := Node(Node(Leaf(-1), 1, Leaf(2)), 3, Node(Nil, 5, Leaf(6)));
            WeightBalanced(r, 0.5)
  {
    SidesBalanced();
    RootsBalanced();
    BalancedJoin(Node(Leaf(-1), 1, Leaf(2)), 3, Node(Nil, 5, Leaf(6)), 0.5);
  }

  lemma DeepInsertSevenBalances()
    ensures var r := Node(Node(Leaf(1), 2, Nil), 3, Node(Leaf(5), 6, Leaf(7)));
            WeightBalanced(r, 0.5)
  {
    SidesBalanced();
    RootsBalanced();
    BalancedJoin(Node(Leaf(1), 2, Nil), 3, Node(Leaf(5), 6, Leaf(7)), 0.5);
  }

  lemma SidesBalanced()
    ensures WeightBalanced(Node(Leaf(-1), 1, Leaf(2)), 0.5)
    ensures WeightBalanced(Node(Nil, 5, Leaf(6)), 0.5)
    ensures WeightBalanced(Node(Leaf(1), 2, Nil), 0.5)
    ensures WeightBalanced(Node(Leaf(5), 6, Leaf(7)), 0.5)
  {
  }

  lemma RootsBalanced()
    ensures LocallyBalanced(Node(Node(Leaf(-1), 1, Leaf(2)), 3, Node(Nil, 5, Leaf(6))), 0.5)
    ensures LocallyBalanced(Node(Node(Leaf(1), 2, Nil), 3, Node(Leaf(5), 6, Leaf(7))), 0.5)
  {
  }

  /** A node balanced at itself over two balanced subtrees is balanced. */
  lemma BalancedJoin(l: Tree, k: int, r: Tree, alpha: real)
    requires WeightBalanced(l, alpha) && WeightBalanced(r, alpha)
    requires LocallyBalanced(Node(l, k, r), alpha)
    ensures WeightBalanced(Node(l, k, r), alpha)
  {
  }

  /** Splicing one step down towards a smaller key replaces the left subtree. */
  lemma SpliceLeft(l: Tree, k: int, r: Tree, key: int, s: Tree)
    requires key < k
    ensures ReplaceAt(Node(l, k, r), key, 1, s) == Node(s, k, r)
  {
  }

  /** Splicing one step down towards a key larger than the root's replaces the
      right subtree. */
  lemma SpliceRight(l: Tree, k: int, r: Tree, key: int, s: Tree)
    requires k < key
    ensures ReplaceAt(Node(l, k, r), key, 1, s) == Node(l, k, s)
  {
  }

  // ------------------------------------------------ deletion scenarios

  /** Root 20 with alpha 0.7: the trees holding 1 to 10 keys as 10, 30, 5, 11,
      29, 40, 50, 1 and 12 are inserted. */
  const Grown1 := Leaf(20)
  const Grown2 := Node(Leaf(10), 20, Nil)
  const Grown3 := Node(Leaf(10), 20, Leaf(30))
  const Grown4 := Node(Node(Leaf(5), 10, Nil), 20, Leaf(30))
  const Grown5 := Node(Node(Leaf(5), 10, Leaf(11)), 20, Leaf(30))
  const Grown6 := Node(Node(Leaf(5), 10, Leaf(11)), 20, Node(Leaf(29), 30, Nil))
  const Grown7 := Node(Node(Leaf(5), 10, Leaf(11)), 20, Node(Leaf(29), 30, Leaf(40)))
  const Grown8 := Node(Node(Leaf(5), 10, Leaf(11)), 20, Node(Leaf(29), 30, Node(Nil, 40, Leaf(50))))
  const Grown9 := Node(Node(Node(Leaf(1), 5, Nil), 10, Leaf(11)), 20, Node(Leaf(29), 30, Node(Nil, 40, Leaf(50))))
  const Grown10 := Node(Node(Node(Leaf(1), 5, Nil), 10, Node(Nil, 11, Leaf(12))), 20, Node(Leaf(29), 30, Node(Nil, 40, Leaf(50))))

  /** One quiet insertion: the new leaf passes the bound for the tree's height. */
  lemma GrowthStep(t: Tree, key: int, size: nat, height: nat, next: Tree)
    requires Size(t) == size && Height(t) == height
    requires TryInsertWithRoot(t, key).tree == next
    requires !ExceedsDepthBound((size + 1) as real, height, 0.7)
    ensures !InsertTooDeep(t, key, size, 0.7)
    ensures InsertPolicy(t, key, size, 0.7) == next
  {
    InsertQuietWhenShallow(t, key, size, 0.7);
  }

  /** For alpha 0.7 the tree of 1 keys, of height 1, passes the bound for one more key. */
  lemma GrowthBound1()
    ensures !ExceedsDepthBound(2.0, 1, 0.7)
  {
    assert ExceedsDepthBound(2.0, 1, 0.7) == ExceedsDepthBound(1.4, 0, 0.7);
  }

  /** For alpha 0.7 the tree of 2 keys, of height 2, passes the bound for one more key. */
  lemma GrowthBound2()
    ensures !ExceedsDepthBound(3.0, 2, 0.7)
  {
    assert ExceedsDepthBound(3.0, 2, 0.7) == ExceedsDepthBound(2.1, 1, 0.7);
    assert ExceedsDepthBound(2.1, 1, 0.7) == ExceedsDepthBound(1.47, 0, 0.7);
  }

  /** For alpha 0.7 the tree of 3 keys, of height 2, passes the bound for one more key. */
  lemma GrowthBound3()
    ensures !ExceedsDepthBound(4.0, 2, 0.7)
  {
    assert ExceedsDepthBound(4.0, 2, 0.7) == ExceedsDepthBound(2.8, 1, 0.7);
    assert ExceedsDepthBound(2.8, 1, 0.7) == ExceedsDepthBound(1.96, 0, 0.7);
  }

  /** For alpha 0.7 the tree of 4 keys, of height 3, passes the bound for one more key. */
  lemma GrowthBound4()
    ensures !ExceedsDepthBound(5.0, 3, 0.7)
  {
    assert ExceedsDepthBound(5.0, 3, 0.7) == ExceedsDepthBound(3.5, 2, 0.7);
    assert ExceedsDepthBound(3.5, 2, 0.7) == ExceedsDepthBound(2.45, 1, 0.7);
    assert ExceedsDepthBound(2.45, 1, 0.7) == ExceedsDepthBound(1.715, 0, 0.7);
  }

  /** For alpha 0.7 the tree of 5 keys, of height 3, passes the bound for one more key. */
  lemma GrowthBound5()
    ensures !ExceedsDepthBound(6.0, 3, 0.7)
  {
    assert ExceedsDepthBound(6.0, 3, 0.7) == ExceedsDepthBound(4.2, 2, 0.7);
    assert ExceedsDepthBound(4.2, 2, 0.7) == ExceedsDepthBound(2.94, 1, 0.7);
    assert ExceedsDepthBound(2.94, 1, 0.7) == ExceedsDepthBound(2.058, 0, 0.7);
  }

  /** For alpha 0.7 the tree of 6 keys, of height 3, passes the bound for one more key. */
  lemma GrowthBound6()
    ensures !ExceedsDepthBound(7.0, 3, 0.7)
  {
    assert ExceedsDepthBound(7.0, 3, 0.7) == ExceedsDepthBound(4.9, 2, 0.7);
    assert ExceedsDepthBound(4.9, 2, 0.7) == ExceedsDepthBound(3.43, 1, 0.7);
    assert ExceedsDepthBound(3.43, 1, 0.7) == ExceedsDepthBound(2.401, 0, 0.7);
  }

  /** For alpha 0.7 the tree of 7 keys, of height 3, passes the bound for one more key. */
  lemma GrowthBound7()
    ensures !ExceedsDepthBound(8.0, 3, 0.7)
  {
    assert ExceedsDepthBound(8.0, 3, 0.7) == ExceedsDepthBound(5.6, 2, 0.7);
    assert ExceedsDepthBound(5.6, 2, 0.7) == ExceedsDepthBound(3.92, 1, 0.7);
    assert ExceedsDepthBound(3.92, 1, 0.7) == ExceedsDepthBound(2.744, 0, 0.7);
  }

  /** For alpha 0.7 the tree of 8 keys, of height 4, passes the bound for one more key. */
  lemma GrowthBound8()
    ensures !ExceedsDepthBound(9.0, 4, 0.7)
  {
    assert ExceedsDepthBound(9.0, 4, 0.7) == ExceedsDepthBound(6.3, 3, 0.7);
    assert ExceedsDepthBound(6.3, 3, 0.7) == ExceedsDepthBound(4.41, 2, 0.7);
    assert ExceedsDepthBound(4.41, 2, 0.7) == ExceedsDepthBound(3.087, 1, 0.7);
    assert ExceedsDepthBound(3.087, 1, 0.7) == ExceedsDepthBound(2.1609, 0, 0.7);
  }

  /** For alpha 0.7 the tree of 9 keys, of height 4, passes the bound for one more key. */
  lemma GrowthBound9()
    ensures !ExceedsDepthBound(10.0, 4, 0.7)
  {
    assert ExceedsDepthBound(10.0, 4, 0.7) == ExceedsDepthBound(7.0, 3, 0.7);
    assert ExceedsDepthBound(7.0, 3, 0.7) == ExceedsDepthBound(4.9, 2, 0.7);
    assert ExceedsDepthBound(4.9, 2, 0.7) == ExceedsDepthBound(3.43, 1, 0.7);
    assert ExceedsDepthBound(3.43, 1, 0.7) == ExceedsDepthBound(2.401, 0, 0.7);
  }


  lemma GrownShape1()
    ensures Size(Grown1) == 1 && Height(Grown1) == 1
    ensures TryInsertWithRoot(Grown1, 10).tree == Grown2
  {
  }

  lemma QuietGrowthTo2()
    ensures !InsertTooDeep(Grown1, 10, 1, 0.7) && InsertPolicy(Grown1, 10, 1, 0.7) == Grown2
  {
    GrownShape1();
    GrowthBound1();
    GrowthStep(Grown1, 10, 1, 1, Grown2);
  }

  lemma GrownShape2()
    ensures Size(Grown2) == 2 && Height(Grown2) == 2
    ensures TryInsertWithRoot(Grown2, 30).tree == Grown3
  {
  }

  lemma QuietGrowthTo3()
    ensures !InsertTooDeep(Grown2, 30, 2, 0.7) && InsertPolicy(Grown2, 30, 2, 0.7) == Grown3
  {
    GrownShape2();
    GrowthBound2();
    GrowthStep(Grown2, 30, 2, 2, Grown3);
  }

  lemma GrownShape3()
    ensures Size(Grown3) == 3 && Height(Grown3) == 2
    ensures TryInsertWithRoot(Grown3, 5).tree == Grown4
  {
  }

  lemma QuietGrowthTo4()
    ensures !InsertTooDeep(Grown3, 5, 3, 0.7) && InsertPolicy(Grown3, 5, 3, 0.7) == Grown4
  {
    GrownShape3();
    GrowthBound3();
    GrowthStep(Grown3, 5, 3, 2, Grown4);
  }

  lemma GrownShape4()
    ensures Size(Grown4) == 4 && Height(Grown4) == 3
    ensures TryInsertWithRoot(Grown4, 11).tree == Grown5
  {
  }

  lemma QuietGrowthTo5()
    ensures !InsertTooDeep(Grown4, 11, 4, 0.7) && InsertPolicy(Grown4, 11, 4, 0.7) == Grown5
  {
    GrownShape4();
    GrowthBound4();
    GrowthStep(Grown4, 11, 4, 3, Grown5);
  }

  lemma GrownShape5()
    ensures Size(Grown5) == 5 && Height(Grown5) == 3
    ensures TryInsertWithRoot(Grown5, 29).tree == Grown6
  {
  }

  lemma QuietGrowthTo6()
    ensures !InsertTooDeep(Grown5, 29, 5, 0.7) && InsertPolicy(Grown5, 29, 5, 0.7) == Grown6
  {
    GrownShape5();
    GrowthBound5();
    GrowthStep(Grown5, 29, 5, 3, Grown6);
  }

  lemma GrownShape6()
    ensures Size(Grown6) == 6 && Height(Grown6) == 3
    ensures TryInsertWithRoot(Grown6, 40).tree == Grown7
  {
    GrownSize6();
    GrownHeight6();
    GrownLink6();
  }

  lemma GrownSize6()
    ensures Size(Grown6) == 6
  {
  }

  lemma GrownHeight6()
    ensures Height(Grown6) == 3
  {
  }

  lemma GrownLink6()
    ensures TryInsertWithRoot(Grown6, 40).tree == Grown7
  {
  }

  lemma QuietGrowthTo7()
    ensures !InsertTooDeep(Grown6, 40, 6, 0.7) && InsertPolicy(Grown6, 40, 6, 0.7) == Grown7
  {
    GrownShape6();
    GrowthBound6();
    GrowthStep(Grown6, 40, 6, 3, Grown7);
  }

  lemma GrownShape7()
    ensures Size(Grown7) == 7 && Height(Grown7) == 3
    ensures TryInsertWithRoot(Grown7, 50).tree == Grown8
  {
    GrownSize7();
    GrownHeight7();
    GrownLink7();
  }

  lemma GrownSize7()
    ensures Size(Grown7) == 7
  {
  }

  lemma GrownHeight7()
    ensures Height(Grown7) == 3
  {
  }

  lemma GrownLink7()
    ensures TryInsertWithRoot(Grown7, 50).tree == Grown8
  {
  }

  lemma QuietGrowthTo8()
    ensures !InsertTooDeep(Grown7, 50, 7, 0.7) && InsertPolicy(Grown7, 50, 7, 0.7) == Grown8
  {
    GrownShape7();
    GrowthBound7();
    GrowthStep(Grown7, 50, 7, 3, Grown8);
  }

  lemma GrownShape8()
    ensures Size(Grown8) == 8 && Height(Grown8) == 4
    ensures TryInsertWithRoot(Grown8, 1).tree == Grown9
  {
    GrownSize8();
    GrownHeight8();
    GrownLink8();
  }

  lemma GrownSize8()
    ensures Size(Grown8) == 8
  {
  }

  lemma GrownHeight8()
    ensures Height(Grown8) == 4
  {
  }

  lemma GrownLink8()
    ensures TryInsertWithRoot(Grown8, 1).tree == Grown9
  {
  }

  lemma QuietGrowthTo9()
    ensures !InsertTooDeep(Grown8, 1, 8, 0.7) && InsertPolicy(Grown8, 1, 8, 0.7) == Grown9
  {
    GrownShape8();
    GrowthBound8();
    GrowthStep(Grown8, 1, 8, 4, Grown9);
  }

  lemma GrownShape9()
    ensures Size(Grown9) == 9 && Height(Grown9) == 4
    ensures TryInsertWithRoot(Grown9, 12).tree == Grown10
  {
    GrownSize9();
    GrownHeight9();
    GrownLink9();
  }

  lemma GrownSize9()
    ensures Size(Grown9) == 9
  {
  }

  lemma GrownHeight9()
    ensures Height(Grown9) == 4
  {
  }

  lemma GrownLink9()
    ensures TryInsertWithRoot(Grown9, 12).tree == Grown10
  {
  }

  lemma QuietGrowthTo10()
    ensures !InsertTooDeep(Grown9, 12, 9, 0.7) && InsertPolicy(Grown9, 12, 9, 0.7) == Grown10
  {
    GrownShape9();
    GrowthBound9();
    QuietGrowthAt9(Grown9, Grown10);
  }

  lemma QuietGrowthAt9(t: Tree, next: Tree)
    requires Size(t) == 9 && Height(t) == 4 && TryInsertWithRoot(t, 12).tree == next
    requires !ExceedsDepthBound(10.0, 4, 0.7)
    ensures !InsertTooDeep(t, 12, 9, 0.7) && InsertPolicy(t, 12, 9, 0.7) == next
  {
    GrowthStep(t, 12, 9, 4, next);
  }

  /** With maxSize following the size, none of the nine insertions raises the
      event; each links its key in as a leaf. */
  lemma QuietGrowth()
    ensures !InsertTooDeep(Grown1, 10, 1, 0.7) && InsertPolicy(Grown1, 10, 1, 0.7) == Grown2
    ensures !InsertTooDeep(Grown2, 30, 2, 0.7) && InsertPolicy(Grown2, 30, 2, 0.7) == Grown3
    ensures !InsertTooDeep(Grown3, 5, 3, 0.7) && InsertPolicy(Grown3, 5, 3, 0.7) == Grown4
    ensures !InsertTooDeep(Grown4, 11, 4, 0.7) && InsertPolicy(Grown4, 11, 4, 0.7) == Grown5
    ensures !InsertTooDeep(Grown5, 29, 5, 0.7) && InsertPolicy(Grown5, 29, 5, 0.7) == Grown6
    ensures !InsertTooDeep(Grown6, 40, 6, 0.7) && InsertPolicy(Grown6, 40, 6, 0.7) == Grown7
    ensures !InsertTooDeep(Grown7, 50, 7, 0.7) && InsertPolicy(Grown7, 50, 7, 0.7) == Grown8
    ensures !InsertTooDeep(Grown8, 1, 8, 0.7) && InsertPolicy(Grown8, 1, 8, 0.7) == Grown9
    ensures !InsertTooDeep(Grown9, 12, 9, 0.7) && InsertPolicy(Grown9, 12, 9, 0.7) == Grown10
  {
    QuietGrowthTo2();
    QuietGrowthTo3();
    QuietGrowthTo4();
    QuietGrowthTo5();
    QuietGrowthTo6();
    QuietGrowthTo7();
    QuietGrowthTo8();
    QuietGrowthTo9();
    QuietGrowthTo10();
  }

  /** The chain used for the root deletion: 3 with left leaf 2 and the right
      spine 5, 6, 7, 9, 10. */
  const Chain := Node(Leaf(2), 3, Node(Nil, 5, Node(Nil, 6, Node(Nil, 7, Node(Nil, 9, Leaf(10))))))

  lemma ChainRootDeletion()
    ensures Size(Chain) == 7
    ensures TryDeleteWithRoot(Chain, 3) == Deletion(true, Node(Nil, 2, Chain.right))
  {
  }

  /** Deleting the root always raises the event and rebuilds, whatever the
      share; the controller then resets maxSize to the new size. */
  lemma ChainRootDeleteRebuilds()
    ensures DeleteRebuilds(Chain, 3, 7, 0.5)
    ensures Size(TryDeleteWithRoot(Chain, 3).tree) == 6
  {
    ChainRootDeletion();
  }

  /** After the deletions of 50 and 40 from `Grown10`. */
  const ShrunkLeft := Node(Node(Leaf(1), 5, Nil), 10, Node(Nil, 11, Leaf(12)))
  const Shrunk9 := Node(ShrunkLeft, 20, Node(Leaf(29), 30, Leaf(40)))
  const Shrunk8 := Node(ShrunkLeft, 20, Node(Leaf(29), 30, Nil))

  /** With maxSize 10 and alpha 0.7, 9 and 8 remaining keys are above the share
      and 7 are not. */
  lemma ShrinkShares()
    ensures !AtMostShare(9, 0.7, 10) && !AtMostShare(8, 0.7, 10) && AtMostShare(7, 0.7, 10)
  {
  }

  lemma ShrinkSizes()
    ensures Size(Grown10) == 10 && Size(Shrunk9) == 9 && Size(Shrunk8) == 8
  {
  }

  lemma ShrinkDeletions()
    ensures TryDeleteWithRoot(Grown10, 50) == Deletion(true, Shrunk9)
    ensures TryDeleteWithRoot(Shrunk9, 40) == Deletion(true, Shrunk8)
    ensures TryDeleteWithRoot(Shrunk8, 30).deleted
  {
  }

  /** From the ten-key tree, deleting 50 and then 40 stays quiet (maxSize stays
      10), and deleting 30 then raises the event. */
  lemma ShrinkScenario()
    ensures !DeleteRebuilds(Grown10, 50, 10, 0.7) && TryDeleteWithRoot(Grown10, 50).tree == Shrunk9
    ensures !DeleteRebuilds(Shrunk9, 40, 10, 0.7) && TryDeleteWithRoot(Shrunk9, 40).tree == Shrunk8
    ensures DeleteRebuilds(Shrunk8, 30, 10, 0.7)
  {
    ShrinkShares();
    ShrinkSizes();
    ShrinkDeletions();
  }

  /** Root 40 over the left chain 30, 20: inserting 10 puts the new node three
      levels down. */
  const LeftChain := Node(Node(Leaf(20), 30, Nil), 40, Nil)

  lemma PathOfTenInLeftChain()
    ensures TryInsertWithRoot(LeftChain, 10) ==
            Insertion(true, Node(Node(Node(Leaf(10), 20, Nil), 30, Nil), 40, Nil),
                      [ Node(Node(Node(Leaf(10), 20, Nil), 30, Nil), 40, Nil),
                        Node(Node(Leaf(10), 20, Nil), 30, Nil),
                        Node(Leaf(10), 20, Nil) ])
  {
    assert TryInsertWithRoot(Nil, 10) == Insertion(true, Leaf(10), []);
    assert TryInsertWithRoot(Leaf(20), 10) == Insertion(true, Node(Leaf(10), 20, Nil), [Node(Leaf(10), 20, Nil)]);
    assert TryInsertWithRoot(Node(Leaf(20), 30, Nil), 10) ==
           Insertion(true, Node(Node(Leaf(10), 20, Nil), 30, Nil),
                     [Node(Node(Leaf(10), 20, Nil), 30, Nil), Node(Leaf(10), 20, Nil)]);
  }

  lemma SizeOfLeftChainRoot()
    ensures Size(Node(Node(Node(Leaf(10), 20, Nil), 30, Nil), 40, Nil)) == 4
  {
  }

  lemma SizeOfLeftChainMiddle()
    ensures Size(Node(Node(Leaf(10), 20, Nil), 30, Nil)) == 3
  {
  }

  lemma SizeOfLeftChainBottom()
    ensures Size(Node(Leaf(10), 20, Nil)) == 2
  {
  }

  /** Four keys at depth three fail the bound for alpha 1/2. */
  lemma LeftChainBound()
    ensures ExceedsDepthBound(4.0, 3, 0.5)
  {
    assert ExceedsDepthBound(4.0, 3, 0.5) == ExceedsDepthBound(2.0, 2, 0.5);
    assert ExceedsDepthBound(2.0, 2, 0.5) == ExceedsDepthBound(1.0, 1, 0.5);
    assert ExceedsDepthBound(1.0, 1, 0.5) == ExceedsDepthBound(0.5, 0, 0.5);
  }

  /** The ancestors of 10 in the left chain, from the root down. */
  const LeftChainPath := [ Node(Node(Node(Leaf(10), 20, Nil), 30, Nil), 40, Nil),
                           Node(Node(Leaf(10), 20, Nil), 30, Nil),
                           Node(Leaf(10), 20, Nil) ]

  lemma LeftChainInsertion()
    ensures TryInsertWithRoot(LeftChain, 10).inserted
    ensures TryInsertWithRoot(LeftChain, 10).path == LeftChainPath
    ensures Size(TryInsertWithRoot(LeftChain, 10).tree) == 4
  {
    PathOfTenInLeftChain();
    SizeOfLeftChainRoot();
  }

  /** Inserting 10 with maxSize 3 and alpha 1/2 is too deep. */
  lemma LeftChainTooDeep()
    ensures InsertTooDeep(LeftChain, 10, 3, 0.5)
  {
    LeftChainInsertion();
    LeftChainBound();
  }

  /** Root 40 holds a child of 3 > 4 / 2 nodes. */
  lemma LeftChainRootViolates()
    ensures !LocallyBalanced(Node(Node(Node(Leaf(10), 20, Nil), 30, Nil), 40, Nil), 0.5)
  {
    SizeOfLeftChainRoot();
    SizeOfLeftChainMiddle();
  }

  /** 30 holds a child of 2 > 3 / 2 nodes. */
  lemma LeftChainMiddleViolates()
    ensures !LocallyBalanced(Node(Node(Leaf(10), 20, Nil), 30, Nil), 0.5)
  {
    SizeOfLeftChainMiddle();
    SizeOfLeftChainBottom();
  }

  lemma LeftChainScapegoat()
    ensures ScapegoatIndex(TryInsertWithRoot(LeftChain, 10).path, 0.5) == Some(1)
  {
    PathOfTenInLeftChain();
    SizeOfLeftChainMiddle();
    SizeOfLeftChainBottom();
    MiddleScapegoat([ Node(Node(Node(Leaf(10), 20, Nil), 30, Nil), 40, Nil),
                      Node(Node(Leaf(10), 20, Nil), 30, Nil),
                      Node(Leaf(10), 20, Nil) ]);
  }

  /** The depth rule and the "weight violator nearest the root" rule differ:
      inserting 10 below root 40 is too deep for alpha 1/2, both 40 and 30 are out
      of weight balance, and the depth rule picks 30, not the root 40. */
  lemma DepthRuleSkipsRootViolator()
    ensures InsertTooDeep(LeftChain, 10, 3, 0.5)
    ensures TryInsertWithRoot(LeftChain, 10).path == LeftChainPath
    ensures LeftChainPath[0].key == 40 && LeftChainPath[1].key == 30
    ensures !LocallyBalanced(LeftChainPath[0], 0.5) && !LocallyBalanced(LeftChainPath[1], 0.5)
    ensures ScapegoatIndex(TryInsertWithRoot(LeftChain, 10).path, 0.5) == Some(1)
  {
    LeftChainInsertion();
    LeftChainTooDeep();
    LeftChainRootViolates();
    LeftChainMiddleViolates();
    LeftChainScapegoat();
  }

  /** Keys 10, 20, 30, 40 inserted in ascending order: each tree is a right chain. */
  const Ascending1 := Leaf(10)
  const Ascending2 := Node(Nil, 10, Leaf(20))
  const Ascending3 := Node(Nil, 10, Node(Nil, 20, Leaf(30)))
  const Ascending4 := Node(Nil, 10, Node(Nil, 20, Node(Nil, 30, Leaf(40))))

  lemma AscendingSize1()
    ensures Size(Ascending1) == 1
  {
  }

  lemma AscendingHeight1()
    ensures Height(Ascending1) == 1
  {
  }

  lemma AscendingLink1()
    ensures TryInsertWithRoot(Ascending1, 20).tree == Ascending2
  {
  }

  lemma AscendingSize2()
    ensures Size(Ascending2) == 2
  {
  }

  lemma AscendingHeight2()
    ensures Height(Ascending2) == 2
  {
  }

  lemma AscendingLink2()
    ensures TryInsertWithRoot(Ascending2, 30).tree == Ascending3
  {
  }

  lemma AscendingSize3()
    ensures Size(Ascending3) == 3
  {
  }

  lemma AscendingHeight3()
    ensures Height(Ascending3) == 3
  {
  }

  lemma AscendingLink3()
    ensures TryInsertWithRoot(Ascending3, 40).tree == Ascending4
  {
  }


  /** For alpha 0.7 four keys pass the bound at depth three (4 * 0.343 >= 1). */
  lemma AscendingBound3()
    ensures !ExceedsDepthBound(4.0, 3, 0.7)
  {
    assert ExceedsDepthBound(4.0, 3, 0.7) == ExceedsDepthBound(2.8, 2, 0.7);
    assert ExceedsDepthBound(2.8, 2, 0.7) == ExceedsDepthBound(1.96, 1, 0.7);
    assert ExceedsDepthBound(1.96, 1, 0.7) == ExceedsDepthBound(1.372, 0, 0.7);
  }

  /** The three-key chain is 0.7-weight-balanced; the four-key chain is not,
      since the root's right subtree holds 3 > 0.7 * 4 nodes. */
  lemma AscendingBalance()
    ensures WeightBalanced(Ascending3, 0.7)
    ensures !WeightBalanced(Ascending4, 0.7)
  {
    assert Size(Ascending4.right) == 3 && Size(Ascending4) == 4;
  }

  lemma QuietAscentTo2()
    ensures !InsertTooDeep(Ascending1, 20, 1, 0.7) && InsertPolicy(Ascending1, 20, 1, 0.7) == Ascending2
  {
    AscendingSize1();
    AscendingHeight1();
    AscendingLink1();
    GrowthBound1();
    GrowthStep(Ascending1, 20, 1, 1, Ascending2);
  }

  lemma QuietAscentTo3()
    ensures !InsertTooDeep(Ascending2, 30, 2, 0.7) && InsertPolicy(Ascending2, 30, 2, 0.7) == Ascending3
  {
    AscendingSize2();
    AscendingHeight2();
    AscendingLink2();
    GrowthBound2();
    GrowthStep(Ascending2, 30, 2, 2, Ascending3);
  }

  lemma QuietAscentTo4()
    ensures !InsertTooDeep(Ascending3, 40, 3, 0.7) && InsertPolicy(Ascending3, 40, 3, 0.7) == Ascending4
  {
    AscendingSize3();
    AscendingHeight3();
    AscendingLink3();
    AscendingBound3();
    GrowthStep(Ascending3, 40, 3, 3, Ascending4);
  }

  /** With alpha 0.7, inserting 20, 30 and 40 after 10 never raises the event, and
      the last quiet insertion turns a balanced tree into one that is not:
      balance holds only where a rebuild has just happened. */
  lemma QuietAscentUnbalances()
    ensures !InsertTooDeep(Ascending1, 20, 1, 0.7) && InsertPolicy(Ascending1, 20, 1, 0.7) == Ascending2
    ensures !InsertTooDeep(Ascending2, 30, 2, 0.7) && InsertPolicy(Ascending2, 30, 2, 0.7) == Ascending3
    ensures !InsertTooDeep(Ascending3, 40, 3, 0.7) && InsertPolicy(Ascending3, 40, 3, 0.7) == Ascending4
    ensures WeightBalanced(Ascending3, 0.7) && !WeightBalanced(Ascending4, 0.7)
  {
    QuietAscentTo2();
    QuietAscentTo3();
    QuietAscentTo4();
    AscendingBalance();
  }
}
