/**
 * The tool registry and its three queries: the tools not marked coming-soon
 * sorted by `order`, all tools sorted by `order`, and the lookup by id. The
 * registry is a value, so sorting always works on a fresh sequence and the
 * registry itself keeps its order.
 */
module Registry {
  import opened Wrappers

  datatype Status = Stable | Beta | ComingSoon
  datatype Category = GameEngine | Media | DevUtils | Meta

  /** The fields of a tool manifest that the queries look at or that identify it. */
  datatype Tool = Tool(id: string, title: string, route: string, category: Category, status: Status, order: int)

  const TOOL_REGISTRY: seq<Tool> := [
    Tool("dice", "Dice Calculator", "/dice", GameEngine, Stable, 1),
    Tool("rng", "Seeded RNG", "/rng", GameEngine, Stable, 2),
    Tool("npcs", "NPC Viewer", "/npcs", GameEngine, Stable, 3),
    Tool("vectorize", "Vectorize", "/vectorize", Media, Stable, 4),
    Tool("ffmpeg", "FFmpeg Cookbook", "/ffmpeg", Media, Stable, 6),
    Tool("audio", "Audio Utility", "/audio", Media, Beta, 8),
    Tool("loot", "Loot Tables", "/loot", GameEngine, Beta, 9),
    Tool("formatter", "Input Formatter", "/formatter", DevUtils, Beta, 10),
    Tool("assets", "Asset Checker", "/assets", DevUtils, Beta, 11),
    Tool("algorithms", "Algorithms", "/algorithms", DevUtils, Beta, 12),
    Tool("motion", "Motion Sandbox", "/motion", DevUtils, Beta, 13)
  ]

  // ---------------------------------------------------------------------------
  // Sorting by `order`

  predicate SortedByOrder(s: seq<Tool>) {
    forall i, j :: 0 <= i < j < |s| ==> s[i].order <= s[j].order
  }

  /** The tools of `s` whose order is `v`, in their order in `s`. */
  function OfOrder(s: seq<Tool>, v: int): seq<Tool> {
    if s == [] then []
    else (if s[0].order == v then [s[0]] else []) + OfOrder(s[1..], v)
  }

  lemma {:induction false} OfOrderAppend(a: seq<Tool>, b: seq<Tool>, v: int)
    ensures OfOrder(a + b, v) == OfOrder(a, v) + OfOrder(b, v)
  {
    if a == [] {
      assert a + b == b;
    } else {
      assert (a + b)[1..] == a[1..] + b;
      OfOrderAppend(a[1..], b, v);
    }
  }

  /**
   * Places `t` after the tools of `sorted` whose order is at most its own: one
   * step of a stable sort that takes the input from left to right.
   */
  function Insert(sorted: seq<Tool>, t: Tool): (r: seq<Tool>)
    ensures |r| == |sorted| + 1
  {
    if sorted == [] then [t]
    else if sorted[|sorted| - 1].order <= t.order then sorted + [t]
    else Insert(sorted[..|sorted| - 1], t) + [sorted[|sorted| - 1]]
  }

  /**
   * `[...s].sort((a, b) => a.order - b.order)`: the sort is stable, so the
   * result is fixed by the comparator.
   */
  function SortByOrder(s: seq<Tool>): (r: seq<Tool>)
    ensures |r| == |s|
  {
    if s == [] then []
    else Insert(SortByOrder(s[..|s| - 1]), s[|s| - 1])
  }

  lemma {:induction false} InsertPermutes(sorted: seq<Tool>, t: Tool)
    ensures multiset(Insert(sorted, t)) == multiset(sorted) + multiset{t}
  {
    if sorted != [] && sorted[|sorted| - 1].order > t.order {
      var init, last := sorted[..|sorted| - 1], sorted[|sorted| - 1];
      InsertPermutes(init, t);
      assert sorted == init + [last];
    }
  }

  lemma {:induction false} InsertSorted(sorted: seq<Tool>, t: Tool)
    requires SortedByOrder(sorted)
    ensures SortedByOrder(Insert(sorted, t))
  {
    if sorted != [] && sorted[|sorted| - 1].order > t.order {
      var init, last := sorted[..|sorted| - 1], sorted[|sorted| - 1];
      InsertSorted(init, t);
      InsertPermutes(init, t);
      var front := Insert(init, t);
      forall k | 0 <= k < |front|
        ensures front[k].order <= last.order
      {
        assert front[k] in multiset(front);
        if front[k] != t {
          assert front[k] in init;
        }
      }
    }
  }

  /** Inserting `t` adds it after the tools of the same order and moves no other tool of that order. */
  lemma {:induction false} InsertOfOrder(sorted: seq<Tool>, t: Tool, v: int)
    ensures OfOrder(Insert(sorted, t), v) == OfOrder(sorted, v) + OfOrder([t], v)
  {
    if sorted == [] {
      assert Insert(sorted, t) == [t];
    } else if sorted[|sorted| - 1].order <= t.order {
      OfOrderAppend(sorted, [t], v);
    } else {
      var init, last := sorted[..|sorted| - 1], sorted[|sorted| - 1];
      assert sorted == init + [last];
      InsertOfOrder(init, t, v);
      OfOrderAppend(Insert(init, t), [last], v);
      OfOrderAppend(init, [last], v);
      assert OfOrder([t], v) == [] || OfOrder([last], v) == [];
    }
  }

  /**
   * The sorted sequence is a permutation of the input, ordered by `order`, and
   * tools with equal order keep their relative order.
   */
  lemma {:induction false} SortByOrderSpec(s: seq<Tool>)
    ensures multiset(SortByOrder(s)) == multiset(s)
    ensures SortedByOrder(SortByOrder(s))
    ensures forall v :: OfOrder(SortByOrder(s), v) == OfOrder(s, v)
  {
    if s != [] {
      var init, last := s[..|s| - 1], s[|s| - 1];
      assert s == init + [last];
      SortByOrderSpec(init);
      InsertPermutes(SortByOrder(init), last);
      InsertSorted(SortByOrder(init), last);
      forall v
        ensures OfOrder(SortByOrder(s), v) == OfOrder(s, v)
      {
        InsertOfOrder(SortByOrder(init), last, v);
        OfOrderAppend(init, [last], v);
      }
    }
  }

  /** A sequence already sorted by order comes back unchanged. */
  lemma {:induction false} SortByOrderSorted(s: seq<Tool>)
    requires SortedByOrder(s)
    ensures SortByOrder(s) == s
  {
    if s != [] {
      var init := s[..|s| - 1];
      assert SortedByOrder(init);
      SortByOrderSorted(init);
      assert s == init + [s[|s| - 1]];
    }
  }

  // ---------------------------------------------------------------------------
  // Queries

  /** `registry.filter((t) => t.status !== 'coming-soon')`. */
  function Released(registry: seq<Tool>): (r: seq<Tool>)
    ensures forall t :: t in r <==> t in registry && t.status != ComingSoon
  {
    if registry == [] then []
    else (if registry[0].status != ComingSoon then [registry[0]] else []) + Released(registry[1..])
  }

  lemma {:induction false} ReleasedAll(registry: seq<Tool>)
    requires forall t :: t in registry ==> t.status != ComingSoon
    ensures Released(registry) == registry
  {
    if registry != [] {
      ReleasedAll(registry[1..]);
      assert registry == [registry[0]] + registry[1..];
    }
  }

  /** `getActiveTools`. */
  function ActiveTools(registry: seq<Tool>): seq<Tool> {
    SortByOrder(Released(registry))
  }

  /** `getAllTools`. */
  function AllTools(registry: seq<Tool>): seq<Tool> {
    SortByOrder(registry)
  }

  /** The active tools are exactly the tools not coming soon, each once per registry entry, by order. */
  lemma ActiveToolsSpec(registry: seq<Tool>)
    ensures forall t :: t in ActiveTools(registry) <==> t in registry && t.status != ComingSoon
    ensures multiset(ActiveTools(registry)) == multiset(Released(registry))
    ensures SortedByOrder(ActiveTools(registry))
  {
    SortByOrderSpec(Released(registry));
    forall t
      ensures t in ActiveTools(registry) <==> t in Released(registry)
    {
      assert t in ActiveTools(registry) <==> t in multiset(ActiveTools(registry));
    }
  }

  /** All tools: a permutation of the registry, by order, stable among equal orders. */
  lemma AllToolsSpec(registry: seq<Tool>)
    ensures multiset(AllTools(registry)) == multiset(registry)
    ensures SortedByOrder(AllTools(registry))
    ensures forall v :: OfOrder(AllTools(registry), v) == OfOrder(registry, v)
  {
    SortByOrderSpec(registry);
  }

  /** `registry.find((t) => t.id === id)`: the first tool with that id. */
  function GetTool(registry: seq<Tool>, id: string): (r: Option<Tool>)
    ensures r.None? <==> forall t :: t in registry ==> t.id != id
    ensures r.Some? ==> exists k :: 0 <= k < |registry| && registry[k] == r.value && r.value.id == id && forall m :: 0 <= m < k ==> registry[m].id != id
  {
    if registry == [] then None
    else if registry[0].id == id then Some(registry[0])
    else
      var r := GetTool(registry[1..], id);
      assert r.Some? ==> exists k :: 1 <= k < |registry| && registry[k] == r.value && r.value.id == id && forall m :: 1 <= m < k ==> registry[m].id != id by {
        if r.Some? {
          var k :| 0 <= k < |registry[1..]| && registry[1..][k] == r.value && r.value.id == id && forall m :: 0 <= m < k ==> registry[1..][m].id != id;
          assert registry[k + 1] == r.value;
          assert forall m :: 1 <= m < k + 1 ==> registry[m].id != id by {
            forall m | 1 <= m < k + 1
              ensures registry[m].id != id
            {
              assert registry[m] == registry[1..][m - 1];
            }
          }
        }
      }
      r
  }

  /** With distinct ids, looking up the id of a registered tool finds that tool. */
  lemma GetToolRegistered(registry: seq<Tool>, k: nat)
    requires k < |registry|
    requires forall i, j :: 0 <= i < j < |registry| ==> registry[i].id != registry[j].id
    ensures GetTool(registry, registry[k].id) == Some(registry[k])
  {
    var r := GetTool(registry, registry[k].id);
    var k' :| 0 <= k' < |registry| && registry[k'] == r.value && r.value.id == registry[k].id && forall m :: 0 <= m < k' ==> registry[m].id != registry[k].id;
  }

  // ---------------------------------------------------------------------------
  // The registry as shipped

  /** The shipped registry has distinct ids, increasing orders and no coming-soon tool. */
  lemma RegistryShape()
    ensures forall i, j :: 0 <= i < j < |TOOL_REGISTRY| ==> TOOL_REGISTRY[i].id != TOOL_REGISTRY[j].id
    ensures forall i, j :: 0 <= i < j < |TOOL_REGISTRY| ==> TOOL_REGISTRY[i].order < TOOL_REGISTRY[j].order
    ensures forall t :: t in TOOL_REGISTRY ==> t.status != ComingSoon
  {
  }

  /** A registry already in order with no coming-soon tool is what both queries return. */
  lemma QueriesOfSorted(registry: seq<Tool>)
    requires SortedByOrder(registry)
    requires forall t :: t in registry ==> t.status != ComingSoon
    ensures ActiveTools(registry) == registry && AllTools(registry) == registry
  {
    ReleasedAll(registry);
    SortByOrderSorted(registry);
  }

  /** So both queries return the shipped registry as it stands. */
  lemma ShippedQueries()
    ensures ActiveTools(TOOL_REGISTRY) == TOOL_REGISTRY
    ensures AllTools(TOOL_REGISTRY) == TOOL_REGISTRY
  {
    RegistryShape();
    QueriesOfSorted(TOOL_REGISTRY);
  }
}
