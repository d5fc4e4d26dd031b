/**
 * Reordering messages by parent chain: packages/shared/src/dag.ts. The walk marks what it has
 * visited, so it ends on any input, cycles and duplicate ids included.
 */
module ParentChain {
  import opened Options
  import opened Sequences

  /** `None` stands for both null and undefined, which the source treats alike. */
  datatype Item = Item(uuid: Option<string>, id: Option<string>, parentUuid: Option<string>, body: string)

  function DagId(item: Item): string {
    if item.uuid.Some? then item.uuid.value else if item.id.Some? then item.id.value else ""
  }

  /** An empty parent id counts as no parent here, but not when children are grouped. */
  predicate HasParent(item: Item) {
    item.parentUuid.Some? && item.parentUuid.value != ""
  }

  predicate SeenBefore(items: seq<Item>, k: nat, id: string)
    requires k <= |items|
  {
    exists j | 0 <= j < k :: DagId(items[j]) == id
  }

  /** Every item's parent appears before it. */
  predicate ParentsFirst(items: seq<Item>) {
    forall k | 0 <= k < |items| && HasParent(items[k]) :: SeenBefore(items, k, items[k].parentUuid.value)
  }

  function IdsOf(items: seq<Item>): set<string> {
    set item | item in items :: DagId(item)
  }

  /** The items whose parent is `key`, in input order. */
  function Children(items: seq<Item>, key: Option<string>): seq<Item> {
    if items == [] then []
    else
      Children(items[..|items| - 1], key) + if items[|items| - 1].parentUuid == key then [items[|items| - 1]] else []
  }

  lemma {:induction false} ChildrenAre(items: seq<Item>, key: Option<string>)
    ensures forall item :: item in Children(items, key) <==> item in items && item.parentUuid == key
  {
    if items != [] {
      var front, last := items[..|items| - 1], items[|items| - 1];
      ChildrenAre(front, key);
      assert items == front + [last];
    }
  }

  // ---------- the walk, as a function of what it has visited ----------

  predicate AllIn(some: seq<Item>, items: seq<Item>) {
    forall item | item in some :: item in items
  }

  /** Emits the siblings not yet visited, each followed by the walk of its own children. */
  function Walk(items: seq<Item>, siblings: seq<Item>, visited: set<string>): (r: (seq<Item>, set<string>))
    requires AllIn(siblings, items)
    ensures visited <= r.1
    decreases IdsOf(items) - visited, |siblings|
  {
    if siblings == [] then ([], visited)
    else
      var item, id := siblings[|siblings| - 1], DagId(siblings[|siblings| - 1]);
      var before := Walk(items, siblings[..|siblings| - 1], visited);
      if id in before.1 then before
      else
        assert id in IdsOf(items) - visited;
        var below := Walk(items, ChildrenOf(items, id), before.1 + {id});
        (before.0 + ([item] + below.0), below.1)
  }

  function ChildrenOf(items: seq<Item>, id: string): (r: seq<Item>)
    ensures AllIn(r, items)
  {
    ChildrenAre(items, Some(id));
    Children(items, Some(id))
  }

  function Roots(items: seq<Item>): (r: seq<Item>)
    ensures AllIn(r, items)
  {
    ChildrenAre(items, None);
    Children(items, None)
  }

  function Unvisited(items: seq<Item>, visited: set<string>): seq<Item> {
    if items == [] then []
    else
      Unvisited(items[..|items| - 1], visited)
      + if DagId(items[|items| - 1]) in visited then [] else [items[|items| - 1]]
  }

  lemma UnvisitedStep(items: seq<Item>, k: nat, visited: set<string>)
    requires k < |items|
    ensures Unvisited(items[..k + 1], visited)
         == Unvisited(items[..k], visited) + if DagId(items[k]) in visited then [] else [items[k]]
  {
    assert items[..k + 1][..k] == items[..k];
  }

  /** One more sibling. */
  lemma WalkStep(items: seq<Item>, siblings: seq<Item>, k: nat, visited: set<string>)
    requires k < |siblings| && AllIn(siblings, items)
    ensures AllIn(siblings[..k], items) && AllIn(siblings[..k + 1], items)
    ensures var before, item := Walk(items, siblings[..k], visited), siblings[k];
            Walk(items, siblings[..k + 1], visited)
            == if DagId(item) in before.1 then before else Entered(items, before, item)
  {
    assert siblings[..k + 1][..k] == siblings[..k];
  }

  /** A walk extended by an item and everything below it. */
  function Entered(items: seq<Item>, before: (seq<Item>, set<string>), item: Item): (seq<Item>, set<string>) {
    var below := Walk(items, ChildrenOf(items, DagId(item)), before.1 + {DagId(item)});
    (before.0 + ([item] + below.0), below.1)
  }

  /** What `orderByParentChain` returns. */
  function Reordered(items: seq<Item>): seq<Item> {
    if |items| <= 1 || ParentsFirst(items) then items
    else
      var walk := Walk(items, Roots(items), {});
      walk.0 + Unvisited(items, walk.1)
  }

  // ---------- the source's loops ----------

  method NeedsReorder(items: seq<Item>) returns (needed: bool)
    ensures needed <==> !ParentsFirst(items)
  {
    var seen: set<string> := {};
    for k := 0 to |items|
      invariant forall id :: id in seen <==> SeenBefore(items, k, id)
      invariant forall j | 0 <= j < k && HasParent(items[j]) :: SeenBefore(items, j, items[j].parentUuid.value)
    {
      var item := items[k];
      if HasParent(item) && item.parentUuid.value !in seen {
        return true;
      }
      seen := seen + {DagId(item)};
    }
    return false;
  }

  function ChildrenIn(children: map<Option<string>, seq<Item>>, key: Option<string>): seq<Item> {
    if key in children then children[key] else []
  }

  method GroupByParent(items: seq<Item>) returns (children: map<Option<string>, seq<Item>>)
    ensures forall key :: ChildrenIn(children, key) == Children(items, key)
  {
    children := map[];
    for k := 0 to |items|
      invariant forall key :: ChildrenIn(children, key) == Children(items[..k], key)
    {
      var item := items[k];
      var siblings := ChildrenIn(children, item.parentUuid);
      assert items[..k + 1][..k] == items[..k];
      children := children[item.parentUuid := siblings + [item]];
    }
    assert items[..|items|] == items;
  }

  /** The state that the nested function `visit` shares with its surroundings. */
  class Visitor {
    const children: map<Option<string>, seq<Item>>
    ghost const items: seq<Item>
    var result: seq<Item>
    var visited: set<string>

    ghost predicate Valid() {
      forall key :: ChildrenIn(children, key) == Children(items, key)
    }

    constructor (children: map<Option<string>, seq<Item>>, ghost items: seq<Item>)
      requires forall key :: ChildrenIn(children, key) == Children(items, key)
      ensures Valid() && this.items == items && result == [] && visited == {}
    {
      this.children := children;
      this.items := items;
      result := [];
      visited := {};
    }

    method SiblingsUnder(parentId: Option<string>) returns (siblings: seq<Item>)
      requires Valid()
      ensures siblings == Children(items, parentId) && AllIn(siblings, items)
    {
      ChildrenAre(items, parentId);
      siblings := ChildrenIn(children, parentId);
    }

    /** `visit`: the loop over the siblings, each unvisited one entered in turn. */
    method Visit(parentId: Option<string>)
      requires Valid()
      modifies this
      ensures AllIn(Children(items, parentId), items)
      ensures var walk := Walk(items, Children(items, parentId), old(visited));
              result == old(result) + walk.0 && visited == walk.1
      decreases IdsOf(items) - visited, 1
    {
      var siblings := SiblingsUnder(parentId);
      ghost var walked: (seq<Item>, set<string>) := ([], visited);
      EmptyPlus(result);
      assert siblings[..0] == [];
      for k := 0 to |siblings|
        invariant AllIn(siblings[..k], items) && walked == Walk(items, siblings[..k], old(visited))
        invariant result == old(result) + walked.0 && visited == walked.1
      {
        WalkStep(items, siblings, k, old(visited));
        if DagId(siblings[k]) !in visited {
          ghost var below := Walk(items, ChildrenOf(items, DagId(siblings[k])), visited + {DagId(siblings[k])});
          Regroup(old(result), walked.0, [siblings[k]] + below.0);
          Enter(siblings[k]);
          walked := Entered(items, walked, siblings[k]);
        }
      }
      assert siblings[..|siblings|] == siblings;
    }

    /** The body of that loop for an item not yet visited: mark it, emit it, visit its children. */
    method Enter(item: Item)
      requires Valid() && item in items && DagId(item) !in visited
      modifies this
      ensures var below := Walk(items, ChildrenOf(items, DagId(item)), old(visited) + {DagId(item)});
              result == old(result) + ([item] + below.0) && visited == below.1
      decreases IdsOf(items) - visited, 0
    {
      assert DagId(item) in IdsOf(items) - visited;
      ghost var below := Walk(items, ChildrenOf(items, DagId(item)), visited + {DagId(item)});
      Regroup(result, [item], below.0);
      visited := visited + {DagId(item)};
      result := result + [item];
      Visit(Some(DagId(item)));
    }
  }

  /** Walks from the roots with a fresh visitor. */
  method WalkFromRoots(items: seq<Item>) returns (result: seq<Item>, visited: set<string>)
    ensures (result, visited) == Walk(items, Roots(items), {})
  {
    var children := GroupByParent(items);
    var visitor := new Visitor(children, items);
    visitor.Visit(None);
    result, visited := visitor.result, visitor.visited;
    assert result == Walk(items, Children(items, None), {}).0;
  }

  method OrderByParentChain(items: seq<Item>) returns (out: seq<Item>)
    ensures out == Reordered(items)
  {
    if |items| <= 1 {
      return items;
    }
    var needed := NeedsReorder(items);
    if !needed {
      return items;
    }
    var result, visited := WalkFromRoots(items);
    out := AppendUnvisited(result, items, visited);
  }

  /** The closing loop of `orderByParentChain`. */
  method AppendUnvisited(result: seq<Item>, items: seq<Item>, visited: set<string>) returns (out: seq<Item>)
    ensures out == result + Unvisited(items, visited)
  {
    out := result;
    for k := 0 to |items|
      invariant out == result + Unvisited(items[..k], visited)
    {
      UnvisitedStep(items, k, visited);
      if DagId(items[k]) !in visited {
        out := out + [items[k]];
      }
    }
    assert items[..|items|] == items;
  }
}
