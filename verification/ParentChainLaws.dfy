/**
 * `orderByParentChain` (packages/shared/src/dag.ts) in terms of the fields of its items: what identifies an item, where
 * each item ends up, and which fields do not matter.
 */
module ParentChainLaws {
  import opened Options
  import opened Sequences
  import opened ParentChain
  import opened ParentChainOrder
  import opened ParentChainResults

  // ---------- items and their identifiers ----------

  /** The item goes by this identifier: its uuid or else its id or else the empty string. */
  predicate GoesBy(item: Item, id: string) {
    || item.uuid == Some(id)
    || (item.uuid == None && item.id == Some(id))
    || (item.uuid == None && item.id == None && id == "")
  }

  lemma GoesByDagId(item: Item, id: string)
    ensures GoesBy(item, id) <==> DagId(item) == id
  {
  }

  /** No two items go by the same identifier. */
  predicate Distinct(items: seq<Item>) {
    forall i, j | 0 <= i < j < |items| :: !GoesBy(items[j], DagIdOf(items[i].uuid, items[i].id))
  }

  /** `uuid ?? id ?? ""`. */
  function DagIdOf(uuid: Option<string>, id: Option<string>): string {
    match (uuid, id)
    case (Some(u), _) => u
    case (None, Some(i)) => i
    case (None, None) => ""
  }

  lemma DistinctIs(items: seq<Item>)
    ensures Distinct(items) <==> DistinctIds(items)
  {
    forall i, j | 0 <= i < j < |items|
      ensures GoesBy(items[j], DagIdOf(items[i].uuid, items[i].id)) <==> DagId(items[i]) == DagId(items[j])
    {
      GoesByDagId(items[j], DagIdOf(items[i].uuid, items[i].id));
    }
  }

  /** `parent` is the parent of `child`. */
  predicate IsParent(parent: Item, child: Item) {
    child.parentUuid.Some? && GoesBy(parent, child.parentUuid.value)
  }

  lemma IsParentDagId(parent: Item, child: Item)
    ensures IsParent(parent, child) <==> child.parentUuid == Some(DagId(parent))
  {
    if child.parentUuid.Some? { GoesByDagId(parent, child.parentUuid.value); }
  }

  /** `n` steps up from the item there is an item without parent. */
  predicate ChainEnds(items: seq<Item>, item: Item, n: nat)
    decreases n
  {
    if n == 0 then item.parentUuid == None else exists p | p in items :: IsParent(p, item) && ChainEnds(items, p, n - 1)
  }

  ghost predicate Connected(items: seq<Item>, item: Item) {
    exists n: nat :: ChainEnds(items, item, n)
  }

  lemma {:induction false} ChainIsDepth(items: seq<Item>, item: Item, n: nat)
    ensures ChainEnds(items, item, n) <==> DepthIs(items, item, n)
    decreases n
  {
    if n > 0 {
      forall p | p in items ensures IsParent(p, item) && ChainEnds(items, p, n - 1) <==> item.parentUuid == Some(DagId(p)) && DepthIs(items, p, n - 1) {
        IsParentDagId(p, item);
        ChainIsDepth(items, p, n - 1);
      }
    }
  }

  lemma ConnectedIsRooted(items: seq<Item>, item: Item)
    ensures Connected(items, item) <==> Rooted(items, item)
  {
    forall n: nat ensures ChainEnds(items, item, n) <==> DepthIs(items, item, n) {
      ChainIsDepth(items, item, n);
    }
  }

  /** `item` is `top` or lies `n` steps below it. */
  predicate LiesUnder(items: seq<Item>, item: Item, n: nat, top: Item)
    decreases n
  {
    if n == 0 then item == top else exists p | p in items :: IsParent(p, item) && LiesUnder(items, p, n - 1, top)
  }

  lemma {:induction false} LiesUnderIs(items: seq<Item>, item: Item, n: nat, top: Item)
    ensures LiesUnder(items, item, n, top) <==> AncestorAt(items, item, n, top)
    decreases n
  {
    if n > 0 {
      forall p | p in items
        ensures IsParent(p, item) && LiesUnder(items, p, n - 1, top) <==> item.parentUuid == Some(DagId(p)) && AncestorAt(items, p, n - 1, top)
      {
        IsParentDagId(p, item);
        LiesUnderIs(items, p, n - 1, top);
      }
    }
  }

  /** Every parent, the empty identifier aside, comes before its children. */
  predicate InOrder(items: seq<Item>) {
    forall k | 0 <= k < |items| && items[k].parentUuid.Some? && items[k].parentUuid.value != "" ::
      exists j | 0 <= j < k :: IsParent(items[j], items[k])
  }

  lemma InOrderIs(items: seq<Item>)
    ensures InOrder(items) <==> ParentsFirst(items)
  {
    forall k: nat | k < |items| && HasParent(items[k])
      ensures SeenBefore(items, k, items[k].parentUuid.value) <==> exists j | 0 <= j < k :: IsParent(items[j], items[k])
    {
      forall j | 0 <= j < k ensures IsParent(items[j], items[k]) <==> DagId(items[j]) == items[k].parentUuid.value {
        IsParentDagId(items[j], items[k]);
      }
    }
  }

  // ---------- nothing is lost ----------

  /** With distinct identifiers nothing is lost or duplicated, and a list in order stays as it is. */
  lemma DistinctLoseNothing(items: seq<Item>)
    requires Distinct(items)
    ensures multiset(Reordered(items)) == multiset(items)
    ensures InOrder(items) ==> Reordered(items) == items
  {
    DistinctIs(items);
    InOrderIs(items);
    ReorderedIsPermutation(items);
  }

  // ---------- the order ----------

  predicate Before(s: seq<Item>, x: Item, y: Item) {
    exists i, j | 0 <= i < j < |s| :: s[i] == x && s[j] == y
  }

  lemma BeforeExtends(a: seq<Item>, s: seq<Item>, b: seq<Item>, x: Item, y: Item)
    requires Before(s, x, y)
    ensures Before(a + s + b, x, y)
  {
    var i, j :| 0 <= i < j < |s| && s[i] == x && s[j] == y;
    assert (a + s + b)[|a| + i] == x && (a + s + b)[|a| + j] == y;
  }

  lemma BeforeJoined(a: seq<Item>, b: seq<Item>, x: Item, y: Item)
    requires x in a && y in b
    ensures Before(a + b, x, y)
  {
    var i :| 0 <= i < |a| && a[i] == x;
    var j :| 0 <= j < |b| && b[j] == y;
    assert (a + b)[i] == x && (a + b)[|a| + j] == y;
  }

  /** Siblings with nothing of their trees visited and room for all of them. */
  ghost predicate Fresh(items: seq<Item>, siblings: seq<Item>, key: Option<string>, level: nat, depth: nat, visited: set<string>) {
    && DistinctIds(items) && Level(items, siblings, key, level) && |IdsOf(items) - visited| <= depth
    && IdsOf(Forest(items, siblings, depth)) !! visited
  }

  /** Children of what is there are there. */
  predicate ClosedBelow(items: seq<Item>, some: seq<Item>) {
    forall p, z | p in some && z in items && z.parentUuid == Some(DagId(p)) :: z in some
  }

  lemma ForestIsClosed(items: seq<Item>, siblings: seq<Item>, key: Option<string>, level: nat, depth: nat, visited: set<string>)
    requires Fresh(items, siblings, key, level, depth, visited)
    ensures ClosedBelow(items, Forest(items, siblings, depth))
  {
    var forest := Forest(items, siblings, depth);
    forall p, z | p in forest && z in items && z.parentUuid == Some(DagId(p)) ensures z in forest {
      KeyIsOutside(items, siblings, key, level, depth, p);
      ForestChildren(items, siblings, key, level, depth, visited, z.parentUuid);
      ChildrenAre(items, z.parentUuid);
      ChildrenAre(forest, z.parentUuid);
    }
  }

  /** Whatever lies under an item is there with it. */
  lemma {:induction false} UnderIsThere(items: seq<Item>, some: seq<Item>, z: Item, n: nat, x: Item)
    requires ClosedBelow(items, some) && z in items && AncestorAt(items, z, n, x) && x in some
    ensures z in some
    decreases n
  {
    if n > 0 {
      var p :| p in items && z.parentUuid == Some(DagId(p)) && AncestorAt(items, p, n - 1, x);
      UnderIsThere(items, some, p, n - 1, x);
    }
  }

  lemma KeyIsOutside(items: seq<Item>, siblings: seq<Item>, key: Option<string>, level: nat, depth: nat, p: Item)
    requires DistinctIds(items) && Level(items, siblings, key, level) && p in Forest(items, siblings, depth)
    ensures Some(DagId(p)) != key
  {
    var j := ForestSits(items, siblings, key, level, depth, p);
    var s :| s in siblings && AncestorAt(items, p, j, s);
    NotTheParent(items, s, key, level, p, j);
  }

  lemma EarlierIsInFront(all: seq<Item>, front: seq<Item>, x: Item, last: Item)
    requires DistinctIds(all) && front + [last] <= all && Before(all, x, last)
    ensures x in front
  {
    var i, j :| 0 <= i < j < |all| && all[i] == x && all[j] == last;
    assert all[|front|] == (front + [last])[|front|] == last;
    assert j == |front| && all[i] == (front + [last])[i] == front[i];
  }

  /** What lies under an earlier sibling is in the trees in front. */
  lemma EarlierFamily(items: seq<Item>, front: seq<Item>, last: Item, key: Option<string>, level: nat, depth: nat, visited: set<string>,
                      x: Item, z: Item, n: nat)
    requires Fresh(items, front, key, level, depth, visited) && front + [last] <= Children(items, key)
    requires Before(Children(items, key), x, last) && z in items && AncestorAt(items, z, n, x)
    ensures z in Forest(items, front, depth)
  {
    ChildrenDistinct(items, key);
    EarlierIsInFront(Children(items, key), front, x, last);
    SiblingIsThere(items, front, depth, x);
    ForestIsClosed(items, front, key, level, depth, visited);
    UnderIsThere(items, Forest(items, front, depth), z, n, x);
  }

  /** Everything in `some` comes before `y`. */
  ghost predicate AllBefore(s: seq<Item>, some: seq<Item>, y: Item) {
    forall w | w in some :: Before(s, w, y)
  }

  lemma AllBeforeExtends(f: seq<Item>, last: Item, b: seq<Item>, some: seq<Item>, y: Item)
    requires AllBefore(f, some, y) || AllBefore(b, some, y)
    ensures AllBefore(f + ([last] + b), some, y)
  {
    forall w | w in some ensures Before(f + ([last] + b), w, y) {
      if Before(f, w, y) {
        BeforeExtends([], f, [last] + b, w, y);
        assert [] + f + ([last] + b) == f + ([last] + b);
      } else {
        BeforeExtends(f + [last], b, [], w, y);
        assert f + [last] + b + [] == f + ([last] + b);
      }
    }
  }

  lemma AllBeforeLast(f: seq<Item>, last: Item, b: seq<Item>)
    ensures AllBefore(f + ([last] + b), f, last)
  {
    forall w | w in f ensures Before(f + ([last] + b), w, last) {
      BeforeJoined(f, [last] + b, w, last);
    }
  }

  lemma FreshParts(items: seq<Item>, front: seq<Item>, last: Item, key: Option<string>, level: nat, depth: nat, visited: set<string>)
    requires Fresh(items, front + [last], key, level, depth, visited)
    ensures Fresh(items, front, key, level, depth, visited)
    ensures depth > 0 && Fresh(items, ChildrenOf(items, DagId(last)), Some(DagId(last)), level + 1, depth - 1,
                               visited + IdsOf(Forest(items, front, depth)) + {DagId(last)})
    ensures last.parentUuid == key
  {
    LastTreeIsFresh(items, front, last, key, level, depth, visited);
    LevelFront(items, front, last, key, level);
    ChildLevel(items, last, level);
  }

  /** A beginning of the children of some item, and what the walk has visited when it comes to them. */
  datatype Spot = Spot(front: seq<Item>, level: nat, depth: nat, visited: set<string>)

  /** Where `y` stands in a list: behind the trees of its earlier siblings. */
  ghost predicate Stands(items: seq<Item>, forest: seq<Item>, y: Item, at: Spot) {
    && Fresh(items, at.front, y.parentUuid, at.level, at.depth, at.visited)
    && at.front + [y] <= Children(items, y.parentUuid)
    && AllBefore(forest, Forest(items, at.front, at.depth), y)
  }

  lemma StandsInMore(items: seq<Item>, f: seq<Item>, last: Item, b: seq<Item>, y: Item, at: Spot)
    requires Stands(items, f, y, at) || Stands(items, b, y, at)
    ensures Stands(items, f + ([last] + b), y, at)
  {
    AllBeforeExtends(f, last, b, Forest(items, at.front, at.depth), y);
  }

  lemma {:induction false} StandsBehind(items: seq<Item>, siblings: seq<Item>, key: Option<string>, level: nat, depth: nat,
                                        visited: set<string>, y: Item)
    returns (at: Spot)
    requires Fresh(items, siblings, key, level, depth, visited) && siblings <= Children(items, key)
    requires y in Forest(items, siblings, depth)
    ensures Stands(items, Forest(items, siblings, depth), y, at)
    decreases depth, |siblings|, 1
  {
    var front, last := siblings[..|siblings| - 1], siblings[|siblings| - 1];
    assert siblings == front + [last];
    ForestUnfolds(items, front, last, depth);
    var f, b := Forest(items, front, depth), Below(items, last, depth);
    if y == last {
      at := StandsLast(items, front, last, key, level, depth, visited);
    } else if y in f {
      at := StandsInFront(items, front, last, key, level, depth, visited, y);
      StandsInMore(items, f, last, b, y, at);
    } else {
      at := StandsBelow(items, front, last, key, level, depth, visited, y);
      StandsInMore(items, f, last, b, y, at);
    }
  }

  lemma StandsLast(items: seq<Item>, front: seq<Item>, last: Item, key: Option<string>, level: nat, depth: nat, visited: set<string>)
    returns (at: Spot)
    requires Fresh(items, front + [last], key, level, depth, visited) && front + [last] <= Children(items, key)
    ensures Stands(items, Forest(items, front, depth) + ([last] + Below(items, last, depth)), last, at)
  {
    at := Spot(front, level, depth, visited);
    FreshParts(items, front, last, key, level, depth, visited);
    AllBeforeLast(Forest(items, front, depth), last, Below(items, last, depth));
  }

  lemma {:induction false} StandsInFront(items: seq<Item>, front: seq<Item>, last: Item, key: Option<string>, level: nat, depth: nat,
                                         visited: set<string>, y: Item)
    returns (at: Spot)
    requires Fresh(items, front + [last], key, level, depth, visited) && front + [last] <= Children(items, key)
    requires y in Forest(items, front, depth)
    ensures Stands(items, Forest(items, front, depth), y, at)
    decreases depth, |front| + 1, 0
  {
    FreshParts(items, front, last, key, level, depth, visited);
    assert front <= front + [last];
    at := StandsBehind(items, front, key, level, depth, visited, y);
  }

  lemma {:induction false} StandsBelow(items: seq<Item>, front: seq<Item>, last: Item, key: Option<string>, level: nat, depth: nat,
                                       visited: set<string>, y: Item)
    returns (at: Spot)
    requires Fresh(items, front + [last], key, level, depth, visited) && y in Below(items, last, depth)
    ensures Stands(items, Below(items, last, depth), y, at)
    decreases depth, |front| + 1, 0
  {
    FreshParts(items, front, last, key, level, depth, visited);
    at := StandsInTree(items, last, level + 1, depth, visited + IdsOf(Forest(items, front, depth)) + {DagId(last)}, y);
  }

  lemma {:induction false} StandsInTree(items: seq<Item>, top: Item, level: nat, depth: nat, entered: set<string>, y: Item)
    returns (at: Spot)
    requires depth > 0 && Fresh(items, ChildrenOf(items, DagId(top)), Some(DagId(top)), level, depth - 1, entered)
    requires y in Below(items, top, depth)
    ensures Stands(items, Below(items, top, depth), y, at)
    decreases depth, 0
  {
    at := StandsBehind(items, ChildrenOf(items, DagId(top)), Some(DagId(top)), level, depth - 1, entered, y);
  }

  lemma {:induction false} SiblingIsThere(items: seq<Item>, siblings: seq<Item>, depth: nat, x: Item)
    requires x in siblings
    ensures x in Forest(items, siblings, depth)
    decreases |siblings|
  {
    var front, last := siblings[..|siblings| - 1], siblings[|siblings| - 1];
    if x != last {
      SplitLast(siblings);
      SiblingIsThere(items, front, depth, x);
    }
  }

  lemma {:induction false} ChildrenInOrder(items: seq<Item>, i: nat, j: nat)
    requires i < j < |items| && items[i].parentUuid == items[j].parentUuid
    ensures Before(Children(items, items[j].parentUuid), items[i], items[j])
  {
    var front, last, key := items[..|items| - 1], items[|items| - 1], items[j].parentUuid;
    if j == |items| - 1 {
      ChildrenAre(front, key);
      assert front[i] == items[i];
      BeforeJoined(Children(front, key), [last], items[i], last);
    } else {
      ChildrenInOrder(front, i, j);
      BeforeExtends([], Children(front, key), if last.parentUuid == key then [last] else [], items[i], items[j]);
      EmptyPlus(Children(front, key));
    }
  }

  /** Siblings reachable from a root keep their input order, each family before the next sibling. */
  lemma PreorderOrders(items: seq<Item>, i: nat, j: nat, z: Item, n: nat)
    requires DistinctIds(items) && i < j < |items| && items[i].parentUuid == items[j].parentUuid && Rooted(items, items[j])
    requires z in items && AncestorAt(items, z, n, items[i])
    ensures Before(Preorder(items), z, items[j])
  {
    RootLevel(items);
    FewIds(items);
    assert IdsOf(items) - {} == IdsOf(items);
    ChildrenInOrder(items, i, j);
    PreorderIsRooted(items, items[j]);
    var at := StandsBehind(items, Roots(items), None, 0, |items|, {}, items[j]);
    EarlierFamily(items, at.front, items[j], items[j].parentUuid, at.level, at.depth, at.visited, items[i], z, n);
  }

  /** A parent comes before its children. */
  lemma PreorderParents(items: seq<Item>, p: Item, c: Item)
    requires DistinctIds(items) && p in items && c in items && c.parentUuid == Some(DagId(p)) && Rooted(items, c)
    ensures Before(Preorder(items), p, c)
  {
    var out := Preorder(items);
    PreorderIsRooted(items, c);
    ChildrenAre(items, None);
    ForestParents(items, Roots(items), None, |items|);
    var k :| 0 <= k < |out| && out[k] == c;
    var j :| 0 <= j < k && DagId(out[j]) == c.parentUuid.value;
    PreorderIsRooted(items, out[j]);
    assert out[j] in out;
    SameId(items, out[j], p);
  }

  lemma {:induction false} UnvisitedInOrder(items: seq<Item>, visited: set<string>, i: nat, j: nat)
    requires i < j < |items| && DagId(items[i]) !in visited && DagId(items[j]) !in visited
    ensures Before(Unvisited(items, visited), items[i], items[j])
  {
    var front, last := items[..|items| - 1], items[|items| - 1];
    if j == |items| - 1 {
      UnvisitedAre(front, visited);
      assert front[i] == items[i];
      BeforeJoined(Unvisited(front, visited), [last], items[i], last);
    } else {
      UnvisitedInOrder(front, visited, i, j);
      BeforeExtends([], Unvisited(front, visited), if DagId(last) in visited then [] else [last], items[i], items[j]);
      EmptyPlus(Unvisited(front, visited));
    }
  }

  /**
   * Where everything ends up, for a list with distinct identifiers that is not in order. Connected items come
   * first: a parent before its children, and an item after its earlier siblings with all that lies under them; that
   * fixes their order. The others follow in input order.
   */
  lemma ConnectedComeFirst(items: seq<Item>, i: nat, j: nat, z: Item, n: nat)
    requires Distinct(items) && !InOrder(items) && i < |items| && j < |items|
    ensures var out := Reordered(items);
            && (Connected(items, items[j]) && IsParent(items[i], items[j]) ==> Before(out, items[i], items[j]))
            && (Connected(items, items[j]) && i < j && items[i].parentUuid == items[j].parentUuid ==>
                  z in items && LiesUnder(items, z, n, items[i]) ==> Before(out, z, items[j]))
            && (Connected(items, items[i]) && !Connected(items, items[j]) ==> Before(out, items[i], items[j]))
            && (!Connected(items, items[i]) && !Connected(items, items[j]) && i < j ==> Before(out, items[i], items[j]))
  {
    var p, l := Preorder(items), Leftover(items);
    DistinctIs(items);
    InOrderIs(items);
    ReorderedIs(items);
    ConnectedIsRooted(items, items[i]);
    ConnectedIsRooted(items, items[j]);
    PreorderIsRooted(items, items[i]);
    PreorderIsRooted(items, items[j]);
    UnvisitedAre(items, IdsOf(p));
    EmptyPlus(p);
    if Rooted(items, items[j]) {
      IsParentDagId(items[i], items[j]);
      if IsParent(items[i], items[j]) {
        PreorderParents(items, items[i], items[j]);
        BeforeExtends([], p, l, items[i], items[j]);
      }
      LiesUnderIs(items, z, n, items[i]);
      if i < j && items[i].parentUuid == items[j].parentUuid && z in items && LiesUnder(items, z, n, items[i]) {
        PreorderOrders(items, i, j, z, n);
        BeforeExtends([], p, l, z, items[j]);
      }
    } else if Rooted(items, items[i]) {
      BeforeJoined(p, l, items[i], items[j]);
    } else if i < j {
      UnvisitedInOrder(items, IdsOf(p), i, j);
      BeforeExtends(p, l, [], items[i], items[j]);
      assert p + l + [] == p + l;
    }
  }

  // ---------- fields that do not matter ----------

  /** The list with each item replaced. */
  function Mapped(f: Item -> Item, items: seq<Item>): seq<Item> {
    seq(|items|, k requires 0 <= k < |items| => f(items[k]))
  }

  /** The change touches neither what identifies an item nor its parent. */
  ghost predicate KeepsLinks(f: Item -> Item) {
    forall item :: DagId(f(item)) == DagId(item) && f(item).parentUuid == item.parentUuid
  }

  lemma MappedAppend(f: Item -> Item, a: seq<Item>, b: seq<Item>)
    ensures Mapped(f, a + b) == Mapped(f, a) + Mapped(f, b)
  {
  }

  lemma MappedFront(f: Item -> Item, items: seq<Item>)
    requires items != []
    ensures Mapped(f, items)[..|items| - 1] == Mapped(f, items[..|items| - 1])
    ensures Mapped(f, items)[|items| - 1] == f(items[|items| - 1])
  {
  }

  lemma {:induction false} ChildrenMapped(f: Item -> Item, items: seq<Item>, key: Option<string>)
    requires KeepsLinks(f)
    ensures Children(Mapped(f, items), key) == Mapped(f, Children(items, key))
  {
    if items != [] {
      var last := items[|items| - 1];
      MappedFront(f, items);
      ChildrenMapped(f, items[..|items| - 1], key);
      MappedAppend(f, Children(items[..|items| - 1], key), if last.parentUuid == key then [last] else []);
    }
  }

  lemma IdsMapped(f: Item -> Item, items: seq<Item>)
    requires KeepsLinks(f)
    ensures IdsOf(Mapped(f, items)) == IdsOf(items)
  {
    forall id ensures id in IdsOf(Mapped(f, items)) <==> id in IdsOf(items) {
      if id in IdsOf(items) {
        var k :| 0 <= k < |items| && DagId(items[k]) == id;
        assert Mapped(f, items)[k] in Mapped(f, items);
      }
      if id in IdsOf(Mapped(f, items)) {
        var k :| 0 <= k < |items| && DagId(Mapped(f, items)[k]) == id;
        assert items[k] in items;
      }
    }
  }

  lemma AllInMapped(f: Item -> Item, some: seq<Item>, items: seq<Item>)
    requires AllIn(some, items)
    ensures AllIn(Mapped(f, some), Mapped(f, items))
  {
    forall x | x in Mapped(f, some) ensures x in Mapped(f, items) {
      var k :| 0 <= k < |some| && Mapped(f, some)[k] == x;
      assert some[k] in items;
      var i :| 0 <= i < |items| && items[i] == some[k];
      assert Mapped(f, items)[i] == x;
    }
  }

  lemma {:induction false} WalkMapped(f: Item -> Item, items: seq<Item>, siblings: seq<Item>, visited: set<string>)
    requires KeepsLinks(f) && AllIn(siblings, items)
    ensures AllIn(Mapped(f, siblings), Mapped(f, items))
    ensures Walk(Mapped(f, items), Mapped(f, siblings), visited)
         == (Mapped(f, Walk(items, siblings, visited).0), Walk(items, siblings, visited).1)
    decreases IdsOf(items) - visited, |siblings|
  {
    AllInMapped(f, siblings, items);
    if siblings != [] {
      var front, last := siblings[..|siblings| - 1], siblings[|siblings| - 1];
      assert last in siblings;
      MappedFront(f, siblings);
      WalkMapped(f, items, front, visited);
      var before := Walk(items, front, visited);
      if DagId(last) !in before.1 {
        assert DagId(last) in IdsOf(items);
        ChildrenMapped(f, items, Some(DagId(last)));
        WalkMapped(f, items, ChildrenOf(items, DagId(last)), before.1 + {DagId(last)});
        var below := Walk(items, ChildrenOf(items, DagId(last)), before.1 + {DagId(last)});
        MappedAppend(f, [last], below.0);
        MappedAppend(f, before.0, [last] + below.0);
        assert Mapped(f, [last]) == [f(last)];
      }
    }
  }

  lemma {:induction false} UnvisitedMapped(f: Item -> Item, items: seq<Item>, visited: set<string>)
    requires KeepsLinks(f)
    ensures Unvisited(Mapped(f, items), visited) == Mapped(f, Unvisited(items, visited))
  {
    if items != [] {
      var last := items[|items| - 1];
      MappedFront(f, items);
      UnvisitedMapped(f, items[..|items| - 1], visited);
      MappedAppend(f, Unvisited(items[..|items| - 1], visited), if DagId(last) in visited then [] else [last]);
    }
  }

  lemma ParentsFirstMapped(f: Item -> Item, items: seq<Item>)
    requires KeepsLinks(f)
    ensures ParentsFirst(Mapped(f, items)) <==> ParentsFirst(items)
  {
    var m := Mapped(f, items);
    forall k, id | 0 <= k < |items| ensures SeenBefore(m, k, id) <==> SeenBefore(items, k, id) {
      if SeenBefore(items, k, id) {
        var j :| 0 <= j < k && DagId(items[j]) == id;
        assert DagId(m[j]) == id;
      }
      if SeenBefore(m, k, id) {
        var j :| 0 <= j < k && DagId(m[j]) == id;
        assert DagId(items[j]) == id;
      }
    }
    assert forall k | 0 <= k < |items| :: m[k].parentUuid == items[k].parentUuid;
  }

  lemma ReorderedMapped(f: Item -> Item, items: seq<Item>)
    requires KeepsLinks(f)
    ensures Reordered(Mapped(f, items)) == Mapped(f, Reordered(items))
  {
    ParentsFirstMapped(f, items);
    if |items| > 1 && !ParentsFirst(items) {
      var walk := Walk(items, Roots(items), {});
      ChildrenMapped(f, items, None);
      WalkMapped(f, items, Roots(items), {});
      UnvisitedMapped(f, items, walk.1);
      MappedAppend(f, walk.0, Unvisited(items, walk.1));
    }
  }

  /** The id of an item without uuid becomes its uuid. */
  function WithUuid(item: Item): Item {
    if item.uuid.Some? then item else Item(if item.id.Some? then item.id else Some(""), None, item.parentUuid, item.body)
  }

  /**
   * An id does exactly what a uuid does for an item that has none: reordering commutes with moving it there.
   */
  lemma IdServesAsUuid(items: seq<Item>)
    ensures Reordered(Mapped(WithUuid, items)) == Mapped(WithUuid, Reordered(items))
  {
    ReorderedMapped(WithUuid, items);
  }

  /** Next to a uuid the id does not matter, nor does the content of any item. */
  lemma OnlyLinksMatter(items: seq<Item>, change: Item -> Item)
    requires forall item: Item :: change(item).uuid == item.uuid && change(item).parentUuid == item.parentUuid
    requires forall item: Item :: item.uuid == None ==> change(item).id == item.id
    ensures Reordered(Mapped(change, items)) == Mapped(change, Reordered(items))
  {
    ReorderedMapped(change, items);
  }

  /** Children in front of the parent that goes by its id: the parent is moved to the front. */
  lemma ParentByIdIsFound()
    ensures var a, b := Item(None, Some("a"), None, ""), Item(None, Some("b"), Some("a"), "");
            Reordered([b, a]) == [a, b]
  {
    var a, b := Item(None, Some("a"), None, ""), Item(None, Some("b"), Some("a"), "");
    var items := [b, a];
    assert items[0] == b && items[1] == a;
    assert IsParent(a, b) && !IsParent(b, b) && ChainEnds(items, a, 0) && a in items && ChainEnds(items, b, 1);
    assert !InOrder(items) by { assert items[0].parentUuid == Some("a"); }
    ConnectedComeFirst(items, 1, 0, a, 0);
    DistinctLoseNothing(items);
    var out := Reordered(items);
    assert |out| == |multiset(out)| == |multiset(items)| == 2;
    var i, j :| 0 <= i < j < |out| && out[i] == a && out[j] == b;
  }
}
