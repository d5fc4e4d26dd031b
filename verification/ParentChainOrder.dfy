/**
 * What reordering by parent chain achieves, on any list with distinct ids: nothing is lost, the
 * items whose chain reaches a root come first as the preorder of their forest, the others follow in
 * input order, and doing it again changes nothing.
 */
module ParentChainOrder {
  import opened Options
  import opened ParentChain

  predicate DistinctIds(items: seq<Item>) {
    forall i, j | 0 <= i < j < |items| :: DagId(items[i]) != DagId(items[j])
  }

  lemma SameId(items: seq<Item>, a: Item, b: Item)
    requires DistinctIds(items) && a in items && b in items && DagId(a) == DagId(b)
    ensures a == b
  {
    var i :| 0 <= i < |items| && items[i] == a;
    var j :| 0 <= j < |items| && items[j] == b;
  }

  // ---------- depth below a root ----------

  /** The parent chain of the item reaches a parentless item of the list in `n` steps. */
  predicate DepthIs(items: seq<Item>, item: Item, n: nat)
    decreases n
  {
    if n == 0 then item.parentUuid == None
    else exists p | p in items :: item.parentUuid == Some(DagId(p)) && DepthIs(items, p, n - 1)
  }

  ghost predicate Rooted(items: seq<Item>, item: Item) {
    exists n: nat :: DepthIs(items, item, n)
  }

  lemma {:induction false} DepthUnique(items: seq<Item>, item: Item, m: nat, n: nat)
    requires DistinctIds(items) && DepthIs(items, item, m) && DepthIs(items, item, n)
    ensures m == n
    decreases m
  {
    if m > 0 && n > 0 {
      var p :| p in items && item.parentUuid == Some(DagId(p)) && DepthIs(items, p, m - 1);
      var q :| q in items && item.parentUuid == Some(DagId(q)) && DepthIs(items, q, n - 1);
      SameId(items, p, q);
      DepthUnique(items, p, m - 1, n - 1);
    }
  }

  /** The ancestor of `item` that is `n` steps up is `top`. */
  predicate AncestorAt(items: seq<Item>, item: Item, n: nat, top: Item)
    decreases n
  {
    if n == 0 then item == top
    else exists p | p in items :: item.parentUuid == Some(DagId(p)) && AncestorAt(items, p, n - 1, top)
  }

  lemma {:induction false} AncestorUnique(items: seq<Item>, item: Item, n: nat, a: Item, b: Item)
    requires DistinctIds(items) && AncestorAt(items, item, n, a) && AncestorAt(items, item, n, b)
    ensures a == b
    decreases n
  {
    if n > 0 {
      var p :| p in items && item.parentUuid == Some(DagId(p)) && AncestorAt(items, p, n - 1, a);
      var q :| q in items && item.parentUuid == Some(DagId(q)) && AncestorAt(items, q, n - 1, b);
      SameId(items, p, q);
      AncestorUnique(items, p, n - 1, a, b);
    }
  }

  lemma {:induction false} AncestorExtends(items: seq<Item>, item: Item, n: nat, a: Item, top: Item)
    requires AncestorAt(items, item, n, a) && top in items && a.parentUuid == Some(DagId(top))
    ensures AncestorAt(items, item, n + 1, top)
    decreases n
  {
    if n == 0 {
      assert AncestorAt(items, top, 0, top);
    } else {
      var p :| p in items && item.parentUuid == Some(DagId(p)) && AncestorAt(items, p, n - 1, a);
      AncestorExtends(items, p, n - 1, a, top);
    }
  }

  // ---------- the forest ----------

  /** The preorder of the trees under the siblings, down to a depth; it knows nothing of visits. */
  function Forest(items: seq<Item>, siblings: seq<Item>, depth: nat): seq<Item>
    decreases depth, |siblings|
  {
    if siblings == [] then []
    else
      var last := siblings[|siblings| - 1];
      Forest(items, siblings[..|siblings| - 1], depth) + ([last] + Below(items, last, depth))
  }

  function Below(items: seq<Item>, item: Item, depth: nat): seq<Item>
    decreases depth, 0
  {
    if depth == 0 then [] else Forest(items, ChildrenOf(items, DagId(item)), depth - 1)
  }

  /** Siblings share a parent, have distinct ids and lie `level` steps below a root. */
  predicate Level(items: seq<Item>, siblings: seq<Item>, key: Option<string>, level: nat) {
    && AllIn(siblings, items) && DistinctIds(siblings)
    && forall s | s in siblings :: s.parentUuid == key && DepthIs(items, s, level)
  }

  /** Where an item of the forest sits: below one of the siblings, that much deeper. */
  predicate SitsUnder(items: seq<Item>, siblings: seq<Item>, level: nat, y: Item, j: nat) {
    y in items && DepthIs(items, y, level + j) && exists s | s in siblings :: AncestorAt(items, y, j, s)
  }

  lemma {:induction false} ChildrenDistinct(items: seq<Item>, key: Option<string>)
    requires DistinctIds(items)
    ensures DistinctIds(Children(items, key))
  {
    if items != [] {
      var front, last := items[..|items| - 1], items[|items| - 1];
      ChildrenDistinct(front, key);
      ChildrenAre(front, key);
      forall c | c in Children(front, key) ensures DagId(c) != DagId(last) {
        var i :| 0 <= i < |front| && front[i] == c;
        assert items[i] == c;
      }
    }
  }

  lemma ChildLevel(items: seq<Item>, item: Item, level: nat)
    requires DistinctIds(items) && item in items && DepthIs(items, item, level)
    ensures Level(items, ChildrenOf(items, DagId(item)), Some(DagId(item)), level + 1)
  {
    ChildrenAre(items, Some(DagId(item)));
    ChildrenDistinct(items, Some(DagId(item)));
  }

  lemma {:induction false} ForestSits(items: seq<Item>, siblings: seq<Item>, key: Option<string>, level: nat, depth: nat, y: Item)
    returns (j: nat)
    requires DistinctIds(items) && Level(items, siblings, key, level) && y in Forest(items, siblings, depth)
    ensures SitsUnder(items, siblings, level, y, j)
    decreases depth, |siblings|
  {
    var front, last := siblings[..|siblings| - 1], siblings[|siblings| - 1];
    if y in Forest(items, front, depth) {
      j := ForestSits(items, front, key, level, depth, y);
      SitsUnderMore(items, siblings, level, y, j);
    } else if y == last {
      j := 0;
      assert AncestorAt(items, y, 0, last);
    } else {
      j := BelowSits(items, last, level, depth, y);
    }
  }

  lemma SitsUnderMore(items: seq<Item>, siblings: seq<Item>, level: nat, y: Item, j: nat)
    requires siblings != [] && SitsUnder(items, siblings[..|siblings| - 1], level, y, j)
    ensures SitsUnder(items, siblings, level, y, j)
  {
    var s :| s in siblings[..|siblings| - 1] && AncestorAt(items, y, j, s);
    assert s in siblings;
  }

  lemma {:induction false} BelowSits(items: seq<Item>, item: Item, level: nat, depth: nat, y: Item) returns (j: nat)
    requires DistinctIds(items) && item in items && DepthIs(items, item, level) && y in Below(items, item, depth)
    ensures y in items && j > 0 && DepthIs(items, y, level + j) && AncestorAt(items, y, j, item)
    decreases depth, 0
  {
    var children := ChildrenOf(items, DagId(item));
    ChildLevel(items, item, level);
    var i := ForestSits(items, children, Some(DagId(item)), level + 1, depth - 1, y);
    UnderChildren(items, item, level, y, i);
    j := i + 1;
  }

  lemma UnderChildren(items: seq<Item>, item: Item, level: nat, y: Item, i: nat)
    requires item in items && SitsUnder(items, ChildrenOf(items, DagId(item)), level + 1, y, i)
    ensures y in items && DepthIs(items, y, level + (i + 1)) && AncestorAt(items, y, i + 1, item)
  {
    var c :| c in ChildrenOf(items, DagId(item)) && AncestorAt(items, y, i, c);
    ChildrenAre(items, Some(DagId(item)));
    AncestorExtends(items, y, i, c, item);
    assert level + 1 + i == level + (i + 1);
  }

  lemma LevelFront(items: seq<Item>, front: seq<Item>, last: Item, key: Option<string>, level: nat)
    requires Level(items, front + [last], key, level)
    ensures Level(items, front, key, level) && last !in front
    ensures last in items && last.parentUuid == key && DepthIs(items, last, level)
  {
    var all := front + [last];
    assert all[|front|] == last && last in all;
    assert forall i | 0 <= i < |front| :: all[i] == front[i] && DagId(all[i]) != DagId(all[|front|]);
    forall s | s in front ensures s in all {}
  }

  lemma InFrontTree(items: seq<Item>, front: seq<Item>, last: Item, key: Option<string>, level: nat, depth: nat, y: Item)
    requires DistinctIds(items) && Level(items, front + [last], key, level) && y in Forest(items, front, depth)
    ensures y in items && y != last && y !in Below(items, last, depth) && Some(DagId(y)) != key
  {
    LevelFront(items, front, last, key, level);
    var j := ForestSits(items, front, key, level, depth, y);
    NotTheParent(items, last, key, level, y, j);
    NotInOtherTree(items, front, last, level, depth, y, j);
  }

  lemma NotInOtherTree(items: seq<Item>, front: seq<Item>, last: Item, level: nat, depth: nat, y: Item, j: nat)
    requires DistinctIds(items) && last in items && last !in front && DepthIs(items, last, level)
    requires SitsUnder(items, front, level, y, j)
    ensures y != last && y !in Below(items, last, depth)
  {
    var s :| s in front && AncestorAt(items, y, j, s);
    if y == last {
      DepthUnique(items, y, level, level + j);
    } else if y in Below(items, last, depth) {
      var i := BelowSits(items, last, level, depth, y);
      DepthUnique(items, y, level + i, level + j);
      AncestorUnique(items, y, j, s, last);
    }
  }

  lemma InLastTree(items: seq<Item>, last: Item, key: Option<string>, level: nat, depth: nat, y: Item)
    requires DistinctIds(items) && last in items && last.parentUuid == key && DepthIs(items, last, level)
    requires y in Below(items, last, depth)
    ensures y in items && y != last && Some(DagId(y)) != key
  {
    var i := BelowSits(items, last, level, depth, y);
    NotTheParent(items, last, key, level, y, i);
    if y == last {
      DepthUnique(items, y, level, level + i);
    }
  }

  /** The trees of distinct siblings share nothing, and none of them contains the siblings' parent. */
  lemma FrontApart(items: seq<Item>, front: seq<Item>, last: Item, key: Option<string>, level: nat, depth: nat)
    requires DistinctIds(items) && Level(items, front + [last], key, level)
    ensures forall y | y in Forest(items, front, depth) ::
              y in items && y != last && y !in Below(items, last, depth) && Some(DagId(y)) != key
  {
    forall y | y in Forest(items, front, depth)
      ensures y in items && y != last && y !in Below(items, last, depth) && Some(DagId(y)) != key
    {
      InFrontTree(items, front, last, key, level, depth, y);
    }
  }

  lemma LastApart(items: seq<Item>, front: seq<Item>, last: Item, key: Option<string>, level: nat, depth: nat)
    requires DistinctIds(items) && Level(items, front + [last], key, level)
    ensures forall y | y in Below(items, last, depth) :: y in items && y != last && Some(DagId(y)) != key
    ensures last in items && Some(DagId(last)) != key
  {
    LevelFront(items, front, last, key, level);
    forall y | y in Below(items, last, depth) ensures y in items && y != last && Some(DagId(y)) != key {
      InLastTree(items, last, key, level, depth, y);
    }
    NotTheParent(items, last, key, level, last, 0);
  }

  lemma NotTheParent(items: seq<Item>, sibling: Item, key: Option<string>, level: nat, y: Item, j: nat)
    requires DistinctIds(items) && sibling in items && sibling.parentUuid == key && DepthIs(items, sibling, level)
    requires y in items && DepthIs(items, y, level + j)
    ensures Some(DagId(y)) != key
  {
    if Some(DagId(y)) == key {
      var p :| p in items && sibling.parentUuid == Some(DagId(p)) && DepthIs(items, p, level - 1);
      SameId(items, p, y);
      DepthUnique(items, y, level - 1, level + j);
    }
  }

  // ---------- the walk is the preorder ----------

  lemma IdsOfConcat(a: seq<Item>, b: seq<Item>)
    ensures IdsOf(a + b) == IdsOf(a) + IdsOf(b)
  {
    assert forall x | x in a :: x in a + b;
    assert forall x | x in b :: x in a + b;
  }

  lemma OtherIds(items: seq<Item>, some: seq<Item>, item: Item)
    requires DistinctIds(items) && item in items && forall y | y in some :: y in items && y != item
    ensures DagId(item) !in IdsOf(some)
  {
    forall y | y in some ensures DagId(y) != DagId(item) {
      if DagId(y) == DagId(item) { SameId(items, y, item); }
    }
  }

  lemma FuelLeft(items: seq<Item>, visited: set<string>, later: set<string>, id: string, depth: nat)
    requires id in IdsOf(items) && id !in visited && visited + {id} <= later
    requires |IdsOf(items) - visited| <= depth
    ensures depth > 0 && |IdsOf(items) - later| <= depth - 1
  {
    var open, left := IdsOf(items) - visited, IdsOf(items) - later;
    assert id in open && left <= open - {id};
    Subset(left, open - {id});
  }

  lemma Subset(a: set<string>, b: set<string>)
    requires a <= b
    ensures |a| <= |b|
  {
    assert b == a + (b - a);
  }

  /** The ids of a forest, split at its last tree: three parts that share nothing. */
  lemma TreeIds(items: seq<Item>, front: seq<Item>, last: Item, key: Option<string>, level: nat, depth: nat)
    requires DistinctIds(items) && Level(items, front + [last], key, level)
    ensures var f, b := IdsOf(Forest(items, front, depth)), IdsOf(Below(items, last, depth));
            && IdsOf(Forest(items, front + [last], depth)) == f + {DagId(last)} + b
            && DagId(last) !in f && DagId(last) !in b && f !! b && DagId(last) in IdsOf(items)
  {
    var f, b := Forest(items, front, depth), Below(items, last, depth);
    FrontApart(items, front, last, key, level, depth);
    LastApart(items, front, last, key, level, depth);
    assert (front + [last])[..|front|] == front;
    IdsOfConcat(f, [last] + b);
    IdsOfConcat([last], b);
    assert IdsOf([last]) == {DagId(last)};
    OtherIds(items, f, last);
    OtherIds(items, b, last);
    forall y | y in b ensures DagId(y) !in IdsOf(f) {
      OtherIds(items, f, y);
    }
  }

  lemma Disjointness(f: set<string>, b: set<string>, id: string, visited: set<string>)
    requires f + {id} + b !! visited && id !in f && id !in b && f !! b
    ensures f !! visited && id !in visited + f && b !! visited + f + {id}
    ensures visited + f + {id} + b == visited + (f + {id} + b)
  {
  }

  /** What the last tree needs when the walk enters it: room, and nothing of it visited yet. */
  lemma LastTreeIsFresh(items: seq<Item>, front: seq<Item>, last: Item, key: Option<string>, level: nat, depth: nat,
                        visited: set<string>)
    requires DistinctIds(items) && Level(items, front + [last], key, level) && |IdsOf(items) - visited| <= depth
    requires IdsOf(Forest(items, front + [last], depth)) !! visited
    ensures var entered := visited + IdsOf(Forest(items, front, depth)) + {DagId(last)};
            && IdsOf(Forest(items, front, depth)) !! visited
            && DagId(last) !in visited + IdsOf(Forest(items, front, depth))
            && depth > 0 && |IdsOf(items) - entered| <= depth - 1 && IdsOf(Below(items, last, depth)) !! entered
            && entered + IdsOf(Below(items, last, depth)) == visited + IdsOf(Forest(items, front + [last], depth))
  {
    var f, b := IdsOf(Forest(items, front, depth)), IdsOf(Below(items, last, depth));
    TreeIds(items, front, last, key, level, depth);
    Disjointness(f, b, DagId(last), visited);
    FuelLeft(items, visited, visited + f + {DagId(last)}, DagId(last), depth);
  }

  lemma WalkUnfolds(items: seq<Item>, front: seq<Item>, last: Item, visited: set<string>)
    requires AllIn(front + [last], items)
    ensures AllIn(front, items)
    ensures var before := Walk(items, front, visited);
            DagId(last) !in before.1 ==>
              var below := Walk(items, ChildrenOf(items, DagId(last)), before.1 + {DagId(last)});
              Walk(items, front + [last], visited) == (before.0 + ([last] + below.0), below.1)
  {
    assert (front + [last])[..|front|] == front;
    assert forall x | x in front :: x in front + [last];
  }

  lemma ForestUnfolds(items: seq<Item>, front: seq<Item>, last: Item, depth: nat)
    ensures Forest(items, front + [last], depth) == Forest(items, front, depth) + ([last] + Below(items, last, depth))
  {
    assert (front + [last])[..|front|] == front;
  }

  /** With distinct ids the visited set never cuts anything off: the walk emits the preorder. */
  lemma {:induction false} WalkIsForest(items: seq<Item>, siblings: seq<Item>, key: Option<string>, level: nat, depth: nat,
                                        visited: set<string>)
    requires DistinctIds(items) && Level(items, siblings, key, level) && |IdsOf(items) - visited| <= depth
    requires IdsOf(Forest(items, siblings, depth)) !! visited
    ensures Walk(items, siblings, visited) == (Forest(items, siblings, depth), visited + IdsOf(Forest(items, siblings, depth)))
    decreases depth, |siblings|
  {
    if siblings == [] {
      assert IdsOf([]) == {};
    } else {
      var front, last := siblings[..|siblings| - 1], siblings[|siblings| - 1];
      assert siblings == front + [last];
      LastTreeIsFresh(items, front, last, key, level, depth, visited);
      LevelFront(items, front, last, key, level);
      WalkIsForest(items, front, key, level, depth, visited);
      ChildLevel(items, last, level);
      WalkBelow(items, last, level, depth, visited + IdsOf(Forest(items, front, depth)) + {DagId(last)});
      WalkUnfolds(items, front, last, visited);
      ForestUnfolds(items, front, last, depth);
    }
  }

  lemma {:induction false} WalkBelow(items: seq<Item>, item: Item, level: nat, depth: nat, entered: set<string>)
    requires DistinctIds(items) && Level(items, ChildrenOf(items, DagId(item)), Some(DagId(item)), level + 1)
    requires depth > 0 && |IdsOf(items) - entered| <= depth - 1 && IdsOf(Below(items, item, depth)) !! entered
    ensures Walk(items, ChildrenOf(items, DagId(item)), entered)
         == (Below(items, item, depth), entered + IdsOf(Below(items, item, depth)))
    decreases depth, 0
  {
    assert Below(items, item, depth) == Forest(items, ChildrenOf(items, DagId(item)), depth - 1);
    WalkIsForest(items, ChildrenOf(items, DagId(item)), Some(DagId(item)), level + 1, depth - 1, entered);
  }

  lemma RootLevel(items: seq<Item>)
    requires DistinctIds(items)
    ensures Level(items, Roots(items), None, 0)
  {
    ChildrenAre(items, None);
    ChildrenDistinct(items, None);
  }

  lemma {:induction false} FewIds(items: seq<Item>)
    ensures |IdsOf(items)| <= |items|
  {
    if items == [] {
      assert IdsOf(items) == {};
    } else {
      var front, last := items[..|items| - 1], items[|items| - 1];
      FewIds(front);
      assert items == front + [last];
      IdsOfConcat(front, [last]);
      assert IdsOf([last]) == {DagId(last)};
    }
  }

  /** The preorder of the whole forest: siblings in input order, each followed by its descendants. */
  function Preorder(items: seq<Item>): seq<Item> {
    Forest(items, Roots(items), |items|)
  }

  lemma RootWalkIsPreorder(items: seq<Item>)
    requires DistinctIds(items)
    ensures Walk(items, Roots(items), {}) == (Preorder(items), IdsOf(Preorder(items)))
  {
    RootLevel(items);
    FewIds(items);
    assert IdsOf(items) - {} == IdsOf(items);
    WalkIsForest(items, Roots(items), None, 0, |items|, {});
  }
}
