/** The guarantees of `orderByParentChain` (packages/shared/src/dag.ts), for every list with distinct ids. */
module ParentChainResults {
  import opened Options
  import opened Sequences
  import opened ParentChain
  import opened ParentChainOrder

  // ---------- the children of a forest ----------

  lemma {:induction false} ChildrenConcat(a: seq<Item>, b: seq<Item>, key: Option<string>)
    ensures Children(a + b, key) == Children(a, key) + Children(b, key)
  {
    if b == [] {
      assert a + b == a;
    } else {
      ChildrenConcat(a, b[..|b| - 1], key);
      assert (a + b)[..|a + b| - 1] == a + b[..|b| - 1];
    }
  }

  lemma ChildrenSplit(f: seq<Item>, last: Item, b: seq<Item>, key: Option<string>)
    ensures Children(f + ([last] + b), key)
         == Children(f, key) + ((if last.parentUuid == key then [last] else []) + Children(b, key))
  {
    ChildrenConcat(f, [last] + b, key);
    ChildrenConcat([last], b, key);
    assert Children([last], key) == if last.parentUuid == key then [last] else [] by {
      assert [last][..0] == [];
    }
  }

  /** The children in a forest under `key`: its own siblings, or everything below one of its items. */
  function ChildrenThere(items: seq<Item>, siblings: seq<Item>, key: Option<string>, ids: set<string>, k: Option<string>): seq<Item> {
    if k == key then siblings else if k.Some? && k.value in ids then Children(items, k) else []
  }

  lemma KeyOutside(items: seq<Item>, front: seq<Item>, last: Item, key: Option<string>, level: nat, depth: nat)
    requires DistinctIds(items) && Level(items, front + [last], key, level)
    ensures key.Some? ==> key.value !in IdsOf(Forest(items, front, depth)) + {DagId(last)} + IdsOf(Below(items, last, depth))
  {
    FrontApart(items, front, last, key, level, depth);
    LastApart(items, front, last, key, level, depth);
  }

  lemma CombineChildren(items: seq<Item>, front: seq<Item>, last: Item, key: Option<string>, f: set<string>, b: set<string>,
                        k: Option<string>)
    requires last.parentUuid == key && DagId(last) !in f && DagId(last) !in b && f !! b
    requires key.Some? ==> key.value !in f + {DagId(last)} + b
    ensures ChildrenThere(items, front, key, f, k)
            + ((if last.parentUuid == k then [last] else [])
               + ChildrenThere(items, ChildrenOf(items, DagId(last)), Some(DagId(last)), b, k))
         == ChildrenThere(items, front + [last], key, f + {DagId(last)} + b, k)
  {
  }

  lemma {:induction false} ForestChildren(items: seq<Item>, siblings: seq<Item>, key: Option<string>, level: nat, depth: nat,
                                          visited: set<string>, k: Option<string>)
    requires DistinctIds(items) && Level(items, siblings, key, level) && |IdsOf(items) - visited| <= depth
    requires IdsOf(Forest(items, siblings, depth)) !! visited
    ensures Children(Forest(items, siblings, depth), k)
         == ChildrenThere(items, siblings, key, IdsOf(Forest(items, siblings, depth)), k)
    decreases depth, |siblings|
  {
    if siblings != [] {
      var front, last := siblings[..|siblings| - 1], siblings[|siblings| - 1];
      assert siblings == front + [last];
      var f, b := Forest(items, front, depth), Below(items, last, depth);
      LastTreeIsFresh(items, front, last, key, level, depth, visited);
      LevelFront(items, front, last, key, level);
      ForestChildren(items, front, key, level, depth, visited, k);
      ChildLevel(items, last, level);
      BelowChildren(items, last, level, depth, visited + IdsOf(f) + {DagId(last)}, k);
      JoinChildren(items, front, last, key, level, depth, k);
    }
  }

  lemma {:induction false} BelowChildren(items: seq<Item>, item: Item, level: nat, depth: nat, entered: set<string>, k: Option<string>)
    requires DistinctIds(items) && Level(items, ChildrenOf(items, DagId(item)), Some(DagId(item)), level + 1)
    requires depth > 0 && |IdsOf(items) - entered| <= depth - 1 && IdsOf(Below(items, item, depth)) !! entered
    ensures Children(Below(items, item, depth), k)
         == ChildrenThere(items, ChildrenOf(items, DagId(item)), Some(DagId(item)), IdsOf(Below(items, item, depth)), k)
    decreases depth, 0
  {
    ForestChildren(items, ChildrenOf(items, DagId(item)), Some(DagId(item)), level + 1, depth - 1, entered, k);
  }

  lemma JoinChildren(items: seq<Item>, front: seq<Item>, last: Item, key: Option<string>, level: nat, depth: nat, k: Option<string>)
    requires DistinctIds(items) && Level(items, front + [last], key, level)
    requires var f := Forest(items, front, depth); Children(f, k) == ChildrenThere(items, front, key, IdsOf(f), k)
    requires var b := Below(items, last, depth);
             Children(b, k) == ChildrenThere(items, ChildrenOf(items, DagId(last)), Some(DagId(last)), IdsOf(b), k)
    ensures var all := Forest(items, front + [last], depth);
            Children(all, k) == ChildrenThere(items, front + [last], key, IdsOf(all), k)
  {
    var f, b := Forest(items, front, depth), Below(items, last, depth);
    ForestUnfolds(items, front, last, depth);
    TreeIds(items, front, last, key, level, depth);
    KeyOutside(items, front, last, key, level, depth);
    LevelFront(items, front, last, key, level);
    ChildrenSplit(f, last, b, k);
    CombineChildren(items, front, last, key, IdsOf(f), IdsOf(b), k);
  }

  // ---------- what the preorder holds ----------

  lemma PreorderChildren(items: seq<Item>, k: Option<string>)
    requires DistinctIds(items)
    ensures Children(Preorder(items), k) == ChildrenThere(items, Roots(items), None, IdsOf(Preorder(items)), k)
  {
    RootLevel(items);
    FewIds(items);
    assert IdsOf(items) - {} == IdsOf(items);
    ForestChildren(items, Roots(items), None, 0, |items|, {}, k);
  }

  lemma {:induction false} DeepItemIsThere(items: seq<Item>, item: Item, n: nat)
    requires DistinctIds(items) && item in items && DepthIs(items, item, n)
    ensures item in Preorder(items)
    decreases n
  {
    PreorderChildren(items, item.parentUuid);
    ChildrenAre(Preorder(items), item.parentUuid);
    ChildrenAre(items, item.parentUuid);
    if n > 0 {
      var p :| p in items && item.parentUuid == Some(DagId(p)) && DepthIs(items, p, n - 1);
      DeepItemIsThere(items, p, n - 1);
      assert DagId(p) in IdsOf(Preorder(items));
    }
  }

  /** The preorder holds exactly the items whose parent chain reaches a parentless item. */
  lemma PreorderIsRooted(items: seq<Item>, item: Item)
    requires DistinctIds(items)
    ensures item in Preorder(items) <==> item in items && Rooted(items, item)
    ensures item in items ==> (DagId(item) in IdsOf(Preorder(items)) <==> Rooted(items, item))
  {
    RootLevel(items);
    forall y | y in Preorder(items) ensures y in items && Rooted(items, y) {
      var j := ForestSits(items, Roots(items), None, 0, |items|, y);
    }
    if item in items && Rooted(items, item) {
      var n: nat :| DepthIs(items, item, n);
      DeepItemIsThere(items, item, n);
    }
    if item in items && DagId(item) in IdsOf(Preorder(items)) {
      var y :| y in Preorder(items) && DagId(y) == DagId(item);
      SameId(items, y, item);
    }
  }

  lemma {:induction false} UnvisitedAre(items: seq<Item>, visited: set<string>)
    ensures forall item :: item in Unvisited(items, visited) <==> item in items && DagId(item) !in visited
  {
    if items != [] {
      UnvisitedAre(items[..|items| - 1], visited);
      SplitLast(items);
    }
  }

  lemma {:induction false} UnvisitedDistinct(items: seq<Item>, visited: set<string>)
    requires DistinctIds(items)
    ensures DistinctIds(Unvisited(items, visited))
  {
    if items != [] {
      var front, last := items[..|items| - 1], items[|items| - 1];
      UnvisitedDistinct(front, visited);
      UnvisitedAre(front, visited);
      forall k | 0 <= k < |Unvisited(front, visited)| ensures DagId(Unvisited(front, visited)[k]) != DagId(last) {
        LastDiffers(items, Unvisited(front, visited)[k]);
      }
    }
  }

  lemma LastDiffers(items: seq<Item>, item: Item)
    requires items != [] && DistinctIds(items) && item in items[..|items| - 1]
    ensures DagId(item) != DagId(items[|items| - 1])
  {
    var i :| 0 <= i < |items| - 1 && items[i] == item;
  }

  /** The items not reachable from a root, in input order. */
  function Leftover(items: seq<Item>): seq<Item> {
    Unvisited(items, IdsOf(Preorder(items)))
  }

  lemma DistinctJoin(a: seq<Item>, b: seq<Item>)
    requires DistinctIds(a) && DistinctIds(b) && IdsOf(a) !! IdsOf(b)
    ensures DistinctIds(a + b)
  {
    forall i, j | 0 <= i < j < |a + b| ensures DagId((a + b)[i]) != DagId((a + b)[j]) {
      if i < |a| && j >= |a| {
        assert DagId(a[i]) in IdsOf(a) && DagId(b[j - |a|]) in IdsOf(b);
      }
    }
  }

  lemma {:induction false} ForestDistinct(items: seq<Item>, siblings: seq<Item>, key: Option<string>, level: nat, depth: nat)
    requires DistinctIds(items) && Level(items, siblings, key, level)
    ensures DistinctIds(Forest(items, siblings, depth))
    decreases depth, |siblings|
  {
    if siblings != [] {
      var front, last := siblings[..|siblings| - 1], siblings[|siblings| - 1];
      assert siblings == front + [last];
      var f, b := Forest(items, front, depth), Below(items, last, depth);
      LevelFront(items, front, last, key, level);
      ForestDistinct(items, front, key, level, depth);
      if depth > 0 {
        ChildLevel(items, last, level);
        ForestDistinct(items, ChildrenOf(items, DagId(last)), Some(DagId(last)), level + 1, depth - 1);
      }
      TreeIds(items, front, last, key, level, depth);
      JoinThree(f, last, b);
    }
  }

  lemma JoinThree(f: seq<Item>, last: Item, b: seq<Item>)
    requires DistinctIds(f) && DistinctIds(b) && DagId(last) !in IdsOf(f) && DagId(last) !in IdsOf(b) && IdsOf(f) !! IdsOf(b)
    ensures DistinctIds(f + ([last] + b))
  {
    assert IdsOf([last]) == {DagId(last)};
    DistinctJoin([last], b);
    IdsOfConcat([last], b);
    DistinctJoin(f, [last] + b);
  }

  lemma {:induction false} DistinctCount(items: seq<Item>, x: Item)
    requires DistinctIds(items)
    ensures multiset(items)[x] == if x in items then 1 else 0
  {
    if items != [] {
      var front, last := items[..|items| - 1], items[|items| - 1];
      DistinctCount(front, x);
      assert items == front + [last];
      assert forall i | 0 <= i < |front| :: front[i] == items[i] && DagId(items[i]) != DagId(last);
    }
  }

  // ---------- main results ----------

  /** Preorder and leftovers together hold each item exactly as often as the input does. */
  lemma PartsArePermutation(items: seq<Item>)
    requires DistinctIds(items)
    ensures multiset(Preorder(items) + Leftover(items)) == multiset(items)
  {
    RootLevel(items);
    ForestDistinct(items, Roots(items), None, 0, |items|);
    UnvisitedAre(items, IdsOf(Preorder(items)));
    UnvisitedDistinct(items, IdsOf(Preorder(items)));
    forall x ensures multiset(Preorder(items))[x] + multiset(Leftover(items))[x] == multiset(items)[x] {
      DistinctCount(Preorder(items), x);
      DistinctCount(Leftover(items), x);
      DistinctCount(items, x);
      PreorderIsRooted(items, x);
    }
    assert multiset(Preorder(items) + Leftover(items)) == multiset(Preorder(items)) + multiset(Leftover(items));
  }

  lemma ShortPermutation(a: seq<Item>, b: seq<Item>)
    requires multiset(a) == multiset(b) && |b| <= 1
    ensures a == b
  {
    assert |multiset(a)| == |a| && |multiset(b)| == |b|;
    if |b| == 1 {
      assert a == [a[0]] && b == [b[0]];
      assert multiset(a)[b[0]] == 1;
    }
  }

  /**
   * The result, exactly: a list already in order comes back as it is; any other comes back as the
   * preorder of the items reachable from a root, then the rest in input order.
   */
  lemma ReorderedIs(items: seq<Item>)
    requires DistinctIds(items)
    ensures Reordered(items) == if ParentsFirst(items) then items else Preorder(items) + Leftover(items)
  {
    RootWalkIsPreorder(items);
    if |items| <= 1 && !ParentsFirst(items) {
      PartsArePermutation(items);
      ShortPermutation(Preorder(items) + Leftover(items), items);
    }
  }

  /** Nothing is lost and nothing is duplicated. */
  lemma ReorderedIsPermutation(items: seq<Item>)
    requires DistinctIds(items)
    ensures multiset(Reordered(items)) == multiset(items)
  {
    ReorderedIs(items);
    PartsArePermutation(items);
  }

  /** In a forest each item's parent comes before it, the siblings' own parent aside. */
  predicate ParentsWithin(some: seq<Item>, key: Option<string>) {
    forall k | 0 <= k < |some| ::
      some[k].parentUuid == key || (some[k].parentUuid.Some? && SeenBefore(some, k, some[k].parentUuid.value))
  }

  lemma {:induction false} ForestParents(items: seq<Item>, siblings: seq<Item>, key: Option<string>, depth: nat)
    requires forall s | s in siblings :: s.parentUuid == key
    ensures ParentsWithin(Forest(items, siblings, depth), key)
    decreases depth, |siblings|
  {
    if siblings != [] {
      var front, last := siblings[..|siblings| - 1], siblings[|siblings| - 1];
      var f, b := Forest(items, front, depth), Below(items, last, depth);
      ForestParents(items, front, key, depth);
      if depth > 0 {
        ChildrenAre(items, Some(DagId(last)));
        ForestParents(items, ChildrenOf(items, DagId(last)), Some(DagId(last)), depth - 1);
      }
      AppendTree(f, last, b, key);
    }
  }

  lemma AppendTree(f: seq<Item>, last: Item, b: seq<Item>, key: Option<string>)
    requires ParentsWithin(f, key) && last.parentUuid == key && ParentsWithin(b, Some(DagId(last)))
    ensures ParentsWithin(f + ([last] + b), key)
  {
    var all := f + ([last] + b);
    forall k | 0 <= k < |all|
      ensures all[k].parentUuid == key || (all[k].parentUuid.Some? && SeenBefore(all, k, all[k].parentUuid.value))
    {
      if k < |f| {
        if f[k].parentUuid != key {
          var j :| 0 <= j < k && DagId(f[j]) == f[k].parentUuid.value;
          assert DagId(all[j]) == all[k].parentUuid.value;
        }
      } else if k > |f| {
        var i := k - |f| - 1;
        assert all[k] == b[i];
        if b[i].parentUuid == Some(DagId(last)) {
          assert DagId(all[|f|]) == all[k].parentUuid.value;
        } else {
          var j :| 0 <= j < i && DagId(b[j]) == b[i].parentUuid.value;
          assert DagId(all[j + |f| + 1]) == all[k].parentUuid.value;
        }
      }
    }
  }

  /** Appending leftovers to the preorder is in order exactly when the leftovers are by themselves. */
  lemma PartsInOrderIff(items: seq<Item>)
    requires DistinctIds(items)
    ensures ParentsFirst(Preorder(items) + Leftover(items)) <==> ParentsFirst(Leftover(items))
  {
    var p, l := Preorder(items), Leftover(items);
    ChildrenAre(items, None);
    ForestParents(items, Roots(items), None, |items|);
    UnvisitedAre(items, IdsOf(p));
    forall k | 0 <= k < |l| && l[k].parentUuid.Some?
      ensures forall j | 0 <= j < |p| :: DagId(p[j]) != l[k].parentUuid.value
    {
      ParentOfLeftover(items, l[k]);
    }
    forall k | 0 <= k < |l| && HasParent(l[k])
      ensures SeenBefore(p + l, |p| + k, l[k].parentUuid.value) <==> SeenBefore(l, k, l[k].parentUuid.value)
    {
      LaterSeen(p, l, k, l[k].parentUuid.value);
    }
    FirstPartInOrder(p, l);
  }

  lemma ChildOfRooted(items: seq<Item>, item: Item)
    requires DistinctIds(items) && item in items
    requires item.parentUuid.Some? && item.parentUuid.value in IdsOf(Preorder(items))
    ensures item in Preorder(items)
  {
    PreorderChildren(items, item.parentUuid);
    ChildrenAre(Preorder(items), item.parentUuid);
    ChildrenAre(items, item.parentUuid);
  }

  lemma ParentOfLeftover(items: seq<Item>, item: Item)
    requires DistinctIds(items) && item in Leftover(items) && item.parentUuid.Some?
    ensures item.parentUuid.value !in IdsOf(Preorder(items))
    ensures forall j | 0 <= j < |Preorder(items)| :: DagId(Preorder(items)[j]) != item.parentUuid.value
  {
    var p := Preorder(items);
    UnvisitedAre(items, IdsOf(p));
    assert item !in p;
    if item.parentUuid.value in IdsOf(p) {
      ChildOfRooted(items, item);
    }
    assert forall j | 0 <= j < |p| :: DagId(p[j]) in IdsOf(p);
  }

  lemma LaterSeen(p: seq<Item>, l: seq<Item>, k: nat, id: string)
    requires k <= |l| && forall j | 0 <= j < |p| :: DagId(p[j]) != id
    ensures SeenBefore(p + l, |p| + k, id) <==> SeenBefore(l, k, id)
  {
    assert forall j | 0 <= j < |p| :: (p + l)[j] == p[j];
    if SeenBefore(l, k, id) {
      var j :| 0 <= j < k && DagId(l[j]) == id;
      assert DagId((p + l)[|p| + j]) == id;
    }
    if SeenBefore(p + l, |p| + k, id) {
      var j :| 0 <= j < |p| + k && DagId((p + l)[j]) == id;
      assert DagId(l[j - |p|]) == id;
    }
  }

  lemma FirstPartInOrder(p: seq<Item>, l: seq<Item>)
    requires ParentsWithin(p, None)
    requires forall k | 0 <= k < |l| && HasParent(l[k]) ::
               SeenBefore(p + l, |p| + k, l[k].parentUuid.value) <==> SeenBefore(l, k, l[k].parentUuid.value)
    ensures ParentsFirst(p + l) <==> ParentsFirst(l)
  {
    var all := p + l;
    forall k | 0 <= k < |p| && HasParent(p[k]) ensures SeenBefore(all, k, all[k].parentUuid.value) {
      var j :| 0 <= j < k && DagId(p[j]) == p[k].parentUuid.value;
      assert DagId(all[j]) == all[k].parentUuid.value;
    }
    assert forall k | 0 <= k < |l| :: all[|p| + k] == l[k];
    if ParentsFirst(l) {
      forall k | 0 <= k < |all| && HasParent(all[k]) ensures SeenBefore(all, k, all[k].parentUuid.value) {
        if k >= |p| { assert all[k] == l[k - |p|]; }
      }
    }
    if ParentsFirst(all) {
      forall k | 0 <= k < |l| && HasParent(l[k]) ensures SeenBefore(l, k, l[k].parentUuid.value) {
        assert all[|p| + k] == l[k];
      }
    }
  }

  predicate NoEmptyParents(items: seq<Item>) {
    forall item | item in items :: item.parentUuid != Some("")
  }

  /**
   * Exactly when reordering succeeds: on a list with distinct ids and no empty parent ids, the
   * result needs no further reordering if and only if every parent chain ends at a parentless item.
   */
  lemma InOrderIffRooted(items: seq<Item>)
    requires DistinctIds(items) && NoEmptyParents(items)
    ensures ParentsFirst(Reordered(items)) <==> forall item | item in items :: Rooted(items, item)
  {
    ReorderedIs(items);
    LeftoverEmptyIffRooted(items);
    if ParentsFirst(items) {
      forall item | item in items ensures Rooted(items, item) {
        var k :| 0 <= k < |items| && items[k] == item;
        OrderedIsRooted(items, k);
      }
    } else {
      PartsInOrderIff(items);
      FirstLeftoverOutOfOrder(items);
    }
  }

  /**
   * Empty parent ids included: the result needs no further reordering if and only if the list was in
   * order, or its items that reach no root are in order by themselves.
   */
  lemma InOrderIff(items: seq<Item>)
    requires DistinctIds(items)
    ensures ParentsFirst(Reordered(items)) <==> ParentsFirst(items) || ParentsFirst(Leftover(items))
  {
    ReorderedIs(items);
    PartsInOrderIff(items);
  }

  lemma LeftoverEmptyIffRooted(items: seq<Item>)
    requires DistinctIds(items)
    ensures Leftover(items) == [] <==> forall item | item in items :: Rooted(items, item)
  {
    var l := Leftover(items);
    UnvisitedAre(items, IdsOf(Preorder(items)));
    forall item | item in items ensures item in l <==> !Rooted(items, item) {
      PreorderIsRooted(items, item);
    }
    assert l != [] ==> l[0] in l && l[0] in items;
  }

  /** Whatever is left over has a parent, so the first of it comes before its parent. */
  lemma FirstLeftoverOutOfOrder(items: seq<Item>)
    requires DistinctIds(items) && NoEmptyParents(items)
    ensures ParentsFirst(Leftover(items)) <==> Leftover(items) == []
  {
    var l := Leftover(items);
    if l != [] {
      UnvisitedAre(items, IdsOf(Preorder(items)));
      assert l[0] in l && l[0] in items;
      PreorderIsRooted(items, l[0]);
      assert l[0].parentUuid == None ==> DepthIs(items, l[0], 0);
      assert HasParent(l[0]) && !SeenBefore(l, 0, l[0].parentUuid.value);
    }
  }

  lemma {:induction false} OrderedIsRooted(items: seq<Item>, k: nat)
    requires ParentsFirst(items) && NoEmptyParents(items) && k < |items|
    ensures Rooted(items, items[k])
  {
    if items[k].parentUuid == None {
      assert DepthIs(items, items[k], 0);
    } else {
      assert items[k] in items && HasParent(items[k]);
      var j :| 0 <= j < k && DagId(items[j]) == items[k].parentUuid.value;
      OrderedIsRooted(items, j);
      var n: nat :| DepthIs(items, items[j], n);
      assert items[j] in items && DepthIs(items, items[k], n + 1);
    }
  }

  // ---------- doing it again ----------

  lemma {:induction false} WalkCongruent(a: seq<Item>, b: seq<Item>, siblings: seq<Item>, visited: set<string>)
    requires IdsOf(a) == IdsOf(b) && forall k :: Children(a, k) == Children(b, k)
    requires AllIn(siblings, a) && AllIn(siblings, b)
    ensures Walk(a, siblings, visited) == Walk(b, siblings, visited)
    decreases IdsOf(a) - visited, |siblings|
  {
    if siblings != [] {
      var front, last := siblings[..|siblings| - 1], siblings[|siblings| - 1];
      WalkCongruent(a, b, front, visited);
      var before := Walk(a, front, visited);
      assert last in a && DagId(last) in IdsOf(a);
      if DagId(last) !in before.1 {
        assert ChildrenOf(a, DagId(last)) == ChildrenOf(b, DagId(last));
        WalkCongruent(a, b, ChildrenOf(a, DagId(last)), before.1 + {DagId(last)});
      }
    }
  }

  lemma {:induction false} UnvisitedChildrenStay(items: seq<Item>, visited: set<string>, k: Option<string>)
    requires forall x | x in items && x.parentUuid == k :: DagId(x) !in visited
    ensures Children(Unvisited(items, visited), k) == Children(items, k)
  {
    if items != [] {
      var front, last := items[..|items| - 1], items[|items| - 1];
      assert items == front + [last];
      UnvisitedChildrenStay(front, visited, k);
      ChildrenConcat(Unvisited(front, visited), if DagId(last) in visited then [] else [last], k);
      assert [last][..0] == [];
    }
  }

  lemma {:induction false} NoChildrenLeft(items: seq<Item>, visited: set<string>, k: Option<string>)
    requires forall x | x in items && x.parentUuid == k :: DagId(x) in visited
    ensures Children(Unvisited(items, visited), k) == []
  {
    if items != [] {
      var front, last := items[..|items| - 1], items[|items| - 1];
      assert items == front + [last];
      NoChildrenLeft(front, visited, k);
      ChildrenConcat(Unvisited(front, visited), if DagId(last) in visited then [] else [last], k);
      assert [last][..0] == [];
    }
  }

  lemma PartsKeepChildren(items: seq<Item>, k: Option<string>)
    requires DistinctIds(items)
    ensures Children(Preorder(items) + Leftover(items), k) == Children(items, k)
  {
    var p, l := Preorder(items), Leftover(items);
    ChildrenConcat(p, l, k);
    PreorderChildren(items, k);
    ChildrenAre(p, k);
    ChildrenAre(items, k);
    if k == None || k.value in IdsOf(p) {
      assert Children(p, k) == Children(items, k);
      forall x | x in items && x.parentUuid == k ensures DagId(x) in IdsOf(p) {
        assert x in p;
      }
      NoChildrenLeft(items, IdsOf(p), k);
    } else {
      forall x | x in items && x.parentUuid == k ensures DagId(x) !in IdsOf(p) {
        PreorderIsRooted(items, x);
        assert x !in Children(p, k);
      }
      UnvisitedChildrenStay(items, IdsOf(p), k);
    }
  }

  lemma {:induction false} UnvisitedConcat(a: seq<Item>, b: seq<Item>, visited: set<string>)
    ensures Unvisited(a + b, visited) == Unvisited(a, visited) + Unvisited(b, visited)
  {
    if b == [] {
      assert a + b == a;
    } else {
      UnvisitedConcat(a, b[..|b| - 1], visited);
      assert (a + b)[..|a + b| - 1] == a + b[..|b| - 1];
    }
  }

  lemma {:induction false} UnvisitedAll(a: seq<Item>, visited: set<string>)
    ensures (forall x | x in a :: DagId(x) in visited) ==> Unvisited(a, visited) == []
    ensures (forall x | x in a :: DagId(x) !in visited) ==> Unvisited(a, visited) == a
  {
    if a != [] {
      UnvisitedAll(a[..|a| - 1], visited);
      assert a == a[..|a| - 1] + [a[|a| - 1]];
    }
  }

  lemma PartsWalkAlike(items: seq<Item>)
    requires DistinctIds(items)
    ensures var out := Preorder(items) + Leftover(items);
            && Roots(out) == Roots(items)
            && Walk(out, Roots(out), {}) == (Preorder(items), IdsOf(Preorder(items)))
  {
    var out := Preorder(items) + Leftover(items);
    PartsArePermutation(items);
    assert forall x :: x in out <==> x in multiset(out);
    assert forall x :: x in items <==> x in multiset(items);
    assert IdsOf(out) == IdsOf(items);
    forall k ensures Children(out, k) == Children(items, k) {
      PartsKeepChildren(items, k);
    }
    WalkCongruent(out, items, Roots(out), {});
    RootWalkIsPreorder(items);
  }

  lemma PartsLeaveAlike(items: seq<Item>)
    requires DistinctIds(items)
    ensures Unvisited(Preorder(items) + Leftover(items), IdsOf(Preorder(items))) == Leftover(items)
  {
    var p, l := Preorder(items), Leftover(items);
    UnvisitedConcat(p, l, IdsOf(p));
    UnvisitedAre(items, IdsOf(p));
    UnvisitedAll(p, IdsOf(p));
    UnvisitedAll(l, IdsOf(p));
    assert forall x | x in p :: DagId(x) in IdsOf(p);
  }

  /** On any list with distinct ids, cycles and missing parents included, a second call changes nothing. */
  lemma ReorderedTwice(items: seq<Item>)
    requires DistinctIds(items)
    ensures Reordered(Reordered(items)) == Reordered(items)
  {
    ReorderedIs(items);
    if !ParentsFirst(items) {
      PartsWalkAlike(items);
      PartsLeaveAlike(items);
    }
  }

  // ---------- where the conditions come from ----------

  lemma ChildrenOfOne(item: Item, key: Option<string>)
    ensures Children([item], key) == if item.parentUuid == key then [item] else []
  {
    assert [item][..0] == [];
  }

  lemma UnvisitedOfOne(item: Item, visited: set<string>)
    ensures Unvisited([item], visited) == if DagId(item) in visited then [] else [item]
  {
    assert [item][..0] == [];
  }

  /** Whatever the ids, the walk emits each id at most once and marks exactly what it emits. */
  lemma {:induction false} WalkEmitsOnce(items: seq<Item>, siblings: seq<Item>, visited: set<string>)
    requires AllIn(siblings, items)
    ensures var walk := Walk(items, siblings, visited);
            && DistinctIds(walk.0) && IdsOf(walk.0) == walk.1 - visited
            && forall s | s in siblings :: DagId(s) in walk.1
    decreases IdsOf(items) - visited, |siblings|
  {
    if siblings == [] {
      assert IdsOf([]) == {};
    } else {
      var front, last := siblings[..|siblings| - 1], siblings[|siblings| - 1];
      assert siblings == front + [last];
      var before := Walk(items, front, visited);
      WalkEmitsOnce(items, front, visited);
      if DagId(last) !in before.1 {
        assert DagId(last) in IdsOf(items);
        var entered := before.1 + {DagId(last)};
        var below := Walk(items, ChildrenOf(items, DagId(last)), entered);
        WalkEmitsOnce(items, ChildrenOf(items, DagId(last)), entered);
        assert DagId(last) !in IdsOf(before.0) && DagId(last) !in IdsOf(below.0) && IdsOf(before.0) !! IdsOf(below.0);
        JoinThree(before.0, last, below.0);
        IdsOfConcat(before.0, [last] + below.0);
        IdsOfConcat([last], below.0);
        assert IdsOf([last]) == {DagId(last)};
      }
    }
  }

  /** An empty parent id is no parent for `needsReorder` and no root for the walk, so this stays out of order. */
  lemma EmptyParentIsNoRoot()
    ensures var a := Item(Some("a"), None, Some(""), "");
            var b := Item(Some("b"), None, Some("a"), "");
            ParentsFirst([a, b]) && !ParentsFirst([b, a]) && Reordered([b, a]) == [b, a]
  {
    var a := Item(Some("a"), None, Some(""), "");
    var b := Item(Some("b"), None, Some("a"), "");
    assert DagId([a, b][0]) == "a";
    assert HasParent([b, a][0]) && !SeenBefore([b, a], 0, "a");
    assert [b, a] == [b] + [a];
    ChildrenConcat([b], [a], None);
    ChildrenOfOne(a, None);
    ChildrenOfOne(b, None);
    UnvisitedConcat([b], [a], {});
    UnvisitedOfOne(a, {});
    UnvisitedOfOne(b, {});
    assert Walk([b, a], [], {}) == ([], {});
  }
}
