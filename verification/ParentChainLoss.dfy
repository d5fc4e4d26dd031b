/** Lists with duplicate ids: exactly which of them lose items when they are reordered. */
module ParentChainLoss {
  import opened Options
  import opened Sequences
  import opened ParentChain
  import opened ParentChainOrder
  import opened ParentChainResults

  // ---------- which ids the walk reaches, whatever the ids ----------

  lemma ChildIsRooted(items: seq<Item>, p: Item, c: Item)
    requires p in items && Rooted(items, p) && c.parentUuid == Some(DagId(p))
    ensures Rooted(items, c)
  {
    var n: nat :| DepthIs(items, p, n);
    assert DepthIs(items, c, n + 1);
  }

  /** Nothing is emitted that is not below a root. */
  lemma {:induction false} WalkIsRooted(items: seq<Item>, siblings: seq<Item>, visited: set<string>)
    requires AllIn(siblings, items) && forall s | s in siblings :: Rooted(items, s)
    ensures forall y | y in Walk(items, siblings, visited).0 :: y in items && Rooted(items, y)
    decreases IdsOf(items) - visited, |siblings|
  {
    if siblings != [] {
      var front, last := siblings[..|siblings| - 1], siblings[|siblings| - 1];
      assert last in siblings;
      var before := Walk(items, front, visited);
      WalkIsRooted(items, front, visited);
      if DagId(last) !in before.1 {
        assert DagId(last) in IdsOf(items);
        var entered := before.1 + {DagId(last)};
        ChildrenAre(items, Some(DagId(last)));
        forall c | c in ChildrenOf(items, DagId(last)) ensures Rooted(items, c) {
          ChildIsRooted(items, last, c);
        }
        WalkIsRooted(items, ChildrenOf(items, DagId(last)), entered);
      }
    }
  }

  /** All children of the id are marked. */
  predicate Closed(items: seq<Item>, id: string, marked: set<string>) {
    forall c | c in ChildrenOf(items, id) :: DagId(c) in marked
  }

  lemma ClosedGrows(items: seq<Item>, id: string, marked: set<string>, more: set<string>)
    requires Closed(items, id, marked) && marked <= more
    ensures Closed(items, id, more)
  {
  }

  /** Whatever the walk has newly marked, it has marked the children of. */
  lemma {:induction false} WalkIsClosed(items: seq<Item>, siblings: seq<Item>, visited: set<string>)
    requires AllIn(siblings, items)
    ensures forall id | id in Walk(items, siblings, visited).1 - visited :: Closed(items, id, Walk(items, siblings, visited).1)
    decreases IdsOf(items) - visited, |siblings|
  {
    if siblings != [] {
      var front, last := siblings[..|siblings| - 1], siblings[|siblings| - 1];
      assert last in siblings;
      var before := Walk(items, front, visited);
      WalkIsClosed(items, front, visited);
      if DagId(last) !in before.1 {
        assert DagId(last) in IdsOf(items);
        var entered := before.1 + {DagId(last)};
        var below := Walk(items, ChildrenOf(items, DagId(last)), entered);
        WalkIsClosed(items, ChildrenOf(items, DagId(last)), entered);
        WalkEmitsOnce(items, ChildrenOf(items, DagId(last)), entered);
        forall id | id in below.1 - visited ensures Closed(items, id, below.1) {
          if id in before.1 { ClosedGrows(items, id, before.1, below.1); }
        }
      }
    }
  }

  function Marked(items: seq<Item>): set<string> {
    Walk(items, Roots(items), {}).1
  }

  lemma {:induction false} DeepIdIsMarked(items: seq<Item>, item: Item, n: nat)
    requires item in items && DepthIs(items, item, n)
    ensures DagId(item) in Marked(items)
    decreases n
  {
    if n == 0 {
      ChildrenAre(items, None);
      WalkEmitsOnce(items, Roots(items), {});
    } else {
      var p :| p in items && item.parentUuid == Some(DagId(p)) && DepthIs(items, p, n - 1);
      DeepIdIsMarked(items, p, n - 1);
      WalkIsClosed(items, Roots(items), {});
      ChildrenAre(items, Some(DagId(p)));
      assert Closed(items, DagId(p), Marked(items));
    }
  }

  /** Some item with this id has a parent chain that reaches a parentless item. */
  ghost predicate RootedId(items: seq<Item>, id: string) {
    exists r | r in items :: DagId(r) == id && Rooted(items, r)
  }

  lemma MarkedIffRooted(items: seq<Item>, id: string)
    ensures id in Marked(items) <==> RootedId(items, id)
  {
    WalkEmitsOnce(items, Roots(items), {});
    if id in Marked(items) {
      ChildrenAre(items, None);
      assert forall s | s in Roots(items) :: DepthIs(items, s, 0);
      WalkIsRooted(items, Roots(items), {});
      assert id in IdsOf(Walk(items, Roots(items), {}).0);
    }
    if RootedId(items, id) {
      var r :| r in items && DagId(r) == id && Rooted(items, r);
      var n: nat :| DepthIs(items, r, n);
      DeepIdIsMarked(items, r, n);
    }
  }

  // ---------- counting ----------

  /** The items whose ids are marked. */
  function Visited(items: seq<Item>, marked: set<string>): seq<Item> {
    if items == [] then []
    else
      Visited(items[..|items| - 1], marked) + if DagId(items[|items| - 1]) in marked then [items[|items| - 1]] else []
  }

  lemma {:induction false} Partition(items: seq<Item>, marked: set<string>)
    ensures multiset(items) == multiset(Visited(items, marked)) + multiset(Unvisited(items, marked))
    ensures forall item :: item in Visited(items, marked) <==> item in items && DagId(item) in marked
  {
    if items != [] {
      Partition(items[..|items| - 1], marked);
      SplitLast(items);
    }
  }

  /** No id is at two positions. */
  predicate UniqueAmong(items: seq<Item>, marked: set<string>) {
    forall i, j | 0 <= i < j < |items| && DagId(items[i]) == DagId(items[j]) :: DagId(items[i]) !in marked
  }

  lemma UniqueFront(items: seq<Item>, marked: set<string>)
    requires items != []
    ensures var front, last := items[..|items| - 1], items[|items| - 1];
            UniqueAmong(items, marked) <==>
              UniqueAmong(front, marked) && (DagId(last) in marked ==> DagId(last) !in IdsOf(front))
  {
    var front, last := items[..|items| - 1], items[|items| - 1];
    if UniqueAmong(items, marked) && DagId(last) in marked {
      forall i | 0 <= i < |front| ensures DagId(front[i]) != DagId(last) {
        assert items[i] == front[i] && items[|front|] == last;
      }
    }
    if UniqueAmong(front, marked) && (DagId(last) in marked ==> DagId(last) !in IdsOf(front)) {
      forall i, j | 0 <= i < j < |items| && DagId(items[i]) == DagId(items[j]) ensures DagId(items[i]) !in marked {
        if j < |front| {
          assert front[i] == items[i] && front[j] == items[j];
        } else {
          assert front[i] == items[i] && front[i] in front;
        }
      }
    }
  }

  lemma DistinctAppend(s: seq<Item>, last: Item)
    ensures DistinctIds(s + [last]) <==> DistinctIds(s) && DagId(last) !in IdsOf(s)
  {
    var all := s + [last];
    if DistinctIds(all) {
      forall i | 0 <= i < |s| ensures DagId(s[i]) != DagId(last) {
        assert all[i] == s[i] && all[|s|] == last;
      }
      forall i, j | 0 <= i < j < |s| ensures DagId(s[i]) != DagId(s[j]) {
        assert all[i] == s[i] && all[j] == s[j];
      }
    }
    if DistinctIds(s) && DagId(last) !in IdsOf(s) {
      assert forall i | 0 <= i < |s| :: s[i] in s;
    }
  }

  lemma MarkedStays(items: seq<Item>, marked: set<string>, id: string)
    requires id in marked
    ensures id in IdsOf(items) <==> id in IdsOf(Visited(items, marked))
  {
    Partition(items, marked);
    if id in IdsOf(items) {
      var y :| y in items && DagId(y) == id;
      assert y in Visited(items, marked);
    }
  }

  lemma {:induction false} UniqueIffDistinct(items: seq<Item>, marked: set<string>)
    ensures DistinctIds(Visited(items, marked)) <==> UniqueAmong(items, marked)
  {
    if items != [] {
      var front, last := items[..|items| - 1], items[|items| - 1];
      UniqueIffDistinct(front, marked);
      UniqueFront(items, marked);
      if DagId(last) in marked {
        DistinctAppend(Visited(front, marked), last);
        MarkedStays(front, marked, DagId(last));
      } else {
        assert Visited(items, marked) == Visited(front, marked);
      }
    }
  }

  /** There are as many items as ids exactly when the ids are distinct. */
  lemma {:induction false} CountIds(s: seq<Item>)
    ensures |IdsOf(s)| <= |s| && (|IdsOf(s)| == |s| <==> DistinctIds(s))
  {
    if s == [] {
      assert IdsOf(s) == {};
    } else {
      var front, last := s[..|s| - 1], s[|s| - 1];
      CountIds(front);
      SplitLast(s);
      DistinctAppend(front, last);
      IdsOfConcat(front, [last]);
      assert IdsOf([last]) == {DagId(last)};
      if DagId(last) in IdsOf(front) {
        assert IdsOf(s) == IdsOf(front);
      } else {
        assert |IdsOf(front) + {DagId(last)}| == |IdsOf(front)| + 1;
      }
    }
  }

  lemma SameItems(a: seq<Item>, b: seq<Item>)
    requires DistinctIds(a) && DistinctIds(b) && forall x :: x in a <==> x in b
    ensures multiset(a) == multiset(b)
  {
    forall x ensures multiset(a)[x] == multiset(b)[x] {
      DistinctCount(a, x);
      DistinctCount(b, x);
    }
  }

  lemma {:induction false} WalkWithin(items: seq<Item>, siblings: seq<Item>, visited: set<string>)
    requires AllIn(siblings, items)
    ensures AllIn(Walk(items, siblings, visited).0, items)
    decreases IdsOf(items) - visited, |siblings|
  {
    if siblings != [] {
      var front, last := siblings[..|siblings| - 1], siblings[|siblings| - 1];
      assert last in siblings;
      var before := Walk(items, front, visited);
      WalkWithin(items, front, visited);
      if DagId(last) !in before.1 {
        assert DagId(last) in IdsOf(items);
        WalkWithin(items, ChildrenOf(items, DagId(last)), before.1 + {DagId(last)});
      }
    }
  }

  /** What the walk emits has the marked ids, each once. */
  lemma WalkAndVisited(items: seq<Item>)
    ensures var emitted, marked := Walk(items, Roots(items), {}).0, Marked(items);
            && DistinctIds(emitted) && |emitted| == |marked| && IdsOf(Visited(items, marked)) == marked
            && forall y | y in emitted :: y in Visited(items, marked)
  {
    var emitted, marked := Walk(items, Roots(items), {}).0, Marked(items);
    WalkEmitsOnce(items, Roots(items), {});
    WalkWithin(items, Roots(items), {});
    CountIds(emitted);
    Partition(items, marked);
    forall id | id in marked ensures id in IdsOf(Visited(items, marked)) {
      assert id in IdsOf(emitted);
      var y :| y in emitted && DagId(y) == id;
      assert y in Visited(items, marked);
    }
  }

  lemma EmittedIsVisited(items: seq<Item>)
    requires DistinctIds(Visited(items, Marked(items)))
    ensures multiset(Walk(items, Roots(items), {}).0) == multiset(Visited(items, Marked(items)))
  {
    var emitted, visited := Walk(items, Roots(items), {}).0, Visited(items, Marked(items));
    WalkAndVisited(items);
    WalkEmitsOnce(items, Roots(items), {});
    forall x | x in visited ensures x in emitted {
      assert DagId(x) in IdsOf(visited) && DagId(x) in IdsOf(emitted);
      var y :| y in emitted && DagId(y) == DagId(x);
      SameId(visited, x, y);
    }
    SameItems(emitted, visited);
  }

  /** The walk and the unvisited rest hold what the list holds exactly when no marked id is at two positions. */
  lemma PartsKeepAllIff(items: seq<Item>)
    ensures var emitted, marked := Walk(items, Roots(items), {}).0, Marked(items);
            multiset(emitted + Unvisited(items, marked)) == multiset(items) <==> UniqueAmong(items, marked)
  {
    var emitted, marked := Walk(items, Roots(items), {}).0, Marked(items);
    var visited, rest := Visited(items, marked), Unvisited(items, marked);
    Partition(items, marked);
    UniqueIffDistinct(items, marked);
    WalkAndVisited(items);
    CountIds(visited);
    assert multiset(emitted + rest) == multiset(emitted) + multiset(rest);
    if UniqueAmong(items, marked) {
      EmittedIsVisited(items);
    } else {
      Shorter(emitted + rest, items, visited, rest);
    }
  }

  lemma Shorter(a: seq<Item>, items: seq<Item>, visited: seq<Item>, rest: seq<Item>)
    requires multiset(items) == multiset(visited) + multiset(rest) && |a| < |visited| + |rest|
    ensures multiset(a) != multiset(items)
  {
    assert |multiset(items)| == |visited| + |rest|;
    assert |multiset(a)| == |a|;
  }

  // ---------- main result ----------

  /** No id that a rooted item carries is at two positions. */
  ghost predicate RootedIdsUnique(items: seq<Item>) {
    forall i, j | 0 <= i < j < |items| && DagId(items[i]) == DagId(items[j]) :: !RootedId(items, DagId(items[i]))
  }

  /**
   * Exactly when reordering loses nothing, for every list: when there is at most one item, or the list is
   * in order already, or no id of an item whose parent chain reaches a root is at two positions.
   */
  lemma PermutationIff(items: seq<Item>)
    ensures multiset(Reordered(items)) == multiset(items) <==> |items| <= 1 || ParentsFirst(items) || RootedIdsUnique(items)
  {
    forall id ensures id in Marked(items) <==> RootedId(items, id) {
      MarkedIffRooted(items, id);
    }
    assert UniqueAmong(items, Marked(items)) <==> RootedIdsUnique(items);
    PartsKeepAllIff(items);
  }

  /** And it never gains: whatever the ids, every item that comes back was there, and none comes back more often. */
  lemma NothingGained(items: seq<Item>)
    ensures multiset(Reordered(items)) <= multiset(items)
  {
    if |items| > 1 && !ParentsFirst(items) {
      var emitted, marked := Walk(items, Roots(items), {}).0, Marked(items);
      Partition(items, marked);
      WalkAndVisited(items);
      forall x ensures multiset(emitted)[x] <= multiset(Visited(items, marked))[x] {
        DistinctCount(emitted, x);
        if x in emitted { assert x in multiset(Visited(items, marked)); }
      }
      assert multiset(emitted + Unvisited(items, marked)) == multiset(emitted) + multiset(Unvisited(items, marked));
    }
  }

  /** Two roots with one id behind an item that is out of order: one of them is lost. */
  lemma DuplicateRootIsLost()
    ensures var child, a, b := Item(Some("c"), None, Some("r"), ""), Item(Some("r"), None, None, "1"), Item(Some("r"), None, None, "2");
            multiset(Reordered([child, a, b])) != multiset([child, a, b])
  {
    var child, a, b := Item(Some("c"), None, Some("r"), ""), Item(Some("r"), None, None, "1"), Item(Some("r"), None, None, "2");
    var items := [child, a, b];
    assert items[1] == a && items[2] == b && items[0] == child;
    assert HasParent(items[0]) && !SeenBefore(items, 0, "r");
    assert DepthIs(items, a, 0) && Rooted(items, a) && a in items;
    assert RootedId(items, "r");
    PermutationIff(items);
  }
}
