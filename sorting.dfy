/**
 * `static/js/sorting.js`: the "sort" layout. Levels are computed by repeated relaxation over
 * the links (a child sits at least one level below each parent), bounded to 100 passes so
 * that cycles terminate; then every node is pinned, row by level, evenly spaced in its row.
 */
module Sorting {
  import opened Wrappers
  import opened Seqs
  import opened GraphStore
  import State

  /** The bound on relaxation passes. */
  const MaxPasses: nat := 100

  /** A link as the layout sees it: the id of its source and the id of its target. */
  datatype Edge = Edge(source: string, target: string)

  /**
   * Every link endpoint is present. The layout reads `e.id` of each endpoint that is not a
   * string, which throws on `undefined` or `null`.
   */
  predicate Present(links: seq<Link>)
    reads links
  {
    forall i :: 0 <= i < |links| ==> links[i].source != Plain(Missing) && links[i].target != Plain(Missing)
  }

  /**
   * The ids the layout extracts from each link: a string endpoint is the id, an object
   * endpoint gives its `id`.
   */
  function Edges(links: seq<Link>): (r: seq<Edge>)
    reads links
    requires Present(links)
    ensures |r| == |links|
  {
    seq(|links|, i reads links requires 0 <= i < |links| && Present(links) =>
      Edge(State.EndpointId(links[i].source).value, State.EndpointId(links[i].target).value))
  }

  /** The ids of a node list, as a set. */
  function NodeIds(nodes: seq<Node>): set<string>
  {
    set i | 0 <= i < |nodes| :: nodes[i].id
  }

  /**
   * A link is satisfied when its child is at least one level below its parent. A link naming
   * an id that has no level is always satisfied: `undefined + 1` and comparisons with
   * `undefined` are `NaN` and false, so such a link never changes anything.
   */
  predicate Satisfied(levels: map<string, nat>, e: Edge)
  {
    e.source in levels && e.target in levels ==> levels[e.source] + 1 <= levels[e.target]
  }

  /** A fixed point of relaxation: every link is satisfied. */
  predicate Settled(levels: map<string, nat>, edges: seq<Edge>)
  {
    forall k :: 0 <= k < |edges| ==> Satisfied(levels, edges[k])
  }

  /**
   * A walk through the links between known ids: `w[0]` is a parent of `w[1]`, which is a
   * parent of `w[2]`, and so on. Ids may repeat.
   */
  predicate IsWalk(edges: seq<Edge>, known: set<string>, w: seq<string>)
  {
    && |w| >= 1
    && (forall i :: 0 <= i < |w| ==> w[i] in known)
    && (forall i :: 0 <= i < |w| - 1 ==> Edge(w[i], w[i + 1]) in edges)
  }

  /** Some walk of at least one link comes back to where it started. */
  ghost predicate HasCycle(edges: seq<Edge>, known: set<string>)
  {
    exists w :: IsWalk(edges, known, w) && |w| >= 2 && w[0] == w[|w| - 1]
  }

  /** A walk followed by one more link is a walk. */
  lemma ExtendWalk(edges: seq<Edge>, known: set<string>, w: seq<string>, next: string)
    requires IsWalk(edges, known, w) && next in known && Edge(w[|w| - 1], next) in edges
    ensures IsWalk(edges, known, w + [next])
  {
    var w' := w + [next];
    forall i | 0 <= i < |w'| - 1
      ensures Edge(w'[i], w'[i + 1]) in edges
    {
      if i < |w| - 1 {
        assert w'[i] == w[i] && w'[i + 1] == w[i + 1];
      }
    }
  }

  /**
   * On settled levels each link of a walk adds at least one level: the walk's last id is at
   * least `|w| - 1` levels below its first. So no walk ending at an id is longer than its
   * level plus one.
   */
  lemma {:induction false} SettledAlongWalk(levels: map<string, nat>, edges: seq<Edge>, w: seq<string>)
    requires Settled(levels, edges) && IsWalk(edges, levels.Keys, w)
    ensures levels[w[|w| - 1]] >= levels[w[0]] + |w| - 1
    decreases |w|
  {
    if |w| > 1 {
      var init := w[..|w| - 1];
      assert IsWalk(edges, levels.Keys, init) by {
        forall i | 0 <= i < |init| - 1
          ensures Edge(init[i], init[i + 1]) in edges
        {
          assert init[i] == w[i] && init[i + 1] == w[i + 1];
        }
      }
      SettledAlongWalk(levels, edges, init);
      var e := Edge(w[|w| - 2], w[|w| - 1]);
      assert e in edges;
      var k :| 0 <= k < |edges| && edges[k] == e;
      assert Satisfied(levels, edges[k]);
    }
  }

  /** Settled levels rule out a cycle: around it, an id would sit below itself. */
  lemma SettledHasNoCycle(levels: map<string, nat>, edges: seq<Edge>)
    requires Settled(levels, edges)
    ensures !HasCycle(edges, levels.Keys)
  {
    if HasCycle(edges, levels.Keys) {
      var w :| IsWalk(edges, levels.Keys, w) && |w| >= 2 && w[0] == w[|w| - 1];
      SettledAlongWalk(levels, edges, w);
    }
  }

  /**
   * At a fixed point whose levels are explained by walks, each level is the length (in links)
   * of the longest walk ending at its id: one walk is that long and none is longer.
   */
  lemma SettledLevelIsLongestWalk(levels: map<string, nat>, edges: seq<Edge>, id: string)
    requires Witnessed(levels, edges) && Settled(levels, edges) && id in levels
    ensures exists w :: IsWalk(edges, levels.Keys, w) && w[|w| - 1] == id && |w| == levels[id] + 1
    ensures forall w :: IsWalk(edges, levels.Keys, w) && w[|w| - 1] == id ==> |w| <= levels[id] + 1
  {
    forall w | IsWalk(edges, levels.Keys, w) && w[|w| - 1] == id
      ensures |w| <= levels[id] + 1
    {
      SettledAlongWalk(levels, edges, w);
    }
  }

  /** Every level is explained by a walk of links ending at its id with exactly that many links. */
  ghost predicate Witnessed(levels: map<string, nat>, edges: seq<Edge>)
  {
    forall id :: id in levels ==>
      exists w :: IsWalk(edges, levels.Keys, w) && w[|w| - 1] == id && |w| == levels[id] + 1
  }

  /** Each id is explained by its walk: a walk of links ending at it, one id longer than its level. */
  ghost predicate Explains(levels: map<string, nat>, edges: seq<Edge>, walks: map<string, seq<string>>)
  {
    && walks.Keys == levels.Keys
    && forall id :: id in levels ==>
         IsWalk(edges, levels.Keys, walks[id]) && walks[id][|walks[id]| - 1] == id && |walks[id]| == levels[id] + 1
  }

  /**
   * What the relaxation loop achieves: between 1 and 100 passes, all 100 unless the last pass
   * changed nothing (`stable`); every level explained by a walk; a fixed point when stable;
   * and so a cycle always uses all 100 passes.
   */
  ghost predicate Relaxed(levels: map<string, nat>, edges: seq<Edge>, passes: nat, stable: bool)
  {
    && 1 <= passes <= MaxPasses
    && (!stable ==> passes == MaxPasses)
    && Witnessed(levels, edges)
    && (stable ==> Settled(levels, edges))
    && (HasCycle(edges, levels.Keys) ==> !stable && passes == MaxPasses)
  }

  /** Moving a child to its parent's level plus one keeps every level explained. */
  lemma MoveDownKeepsExplanation(levels: map<string, nat>, edges: seq<Edge>, walks: map<string, seq<string>>,
                                 parent: string, child: string)
    requires Explains(levels, edges, walks)
    requires parent in levels && child in levels && Edge(parent, child) in edges
    ensures Explains(levels[child := levels[parent] + 1], edges, walks[child := walks[parent] + [child]])
  {
    ExtendWalk(edges, levels.Keys, walks[parent], child);
    assert levels[child := levels[parent] + 1].Keys == levels.Keys;
  }

  /** The start: every node id at level 0 (a repeated id is listed once). */
  method InitialLevels(nodes: seq<Node>) returns (levels: map<string, nat>)
    ensures levels.Keys == NodeIds(nodes)
    ensures forall id :: id in levels ==> levels[id] == 0
  {
    levels := map[];
    for i := 0 to |nodes|
      invariant levels.Keys == NodeIds(nodes[..i])
      invariant forall id :: id in levels ==> levels[id] == 0
    {
      assert nodes[..i + 1] == nodes[..i] + [nodes[i]];
      levels := levels[nodes[i].id := 0];
    }
    assert nodes[..|nodes|] == nodes;
  }

  /**
   * The body of the pass for one link: when both ids have levels and the parent's level
   * plus one exceeds the child's, the child moves down to it. The levels stay explained; a
   * link that moves nothing was already satisfied.
   */
  method RelaxLink(levels: map<string, nat>, ghost edges: seq<Edge>, ghost walks: map<string, seq<string>>,
                   sourceId: string, targetId: string)
    returns (levels': map<string, nat>, ghost walks': map<string, seq<string>>, moved: bool)
    requires Explains(levels, edges, walks) && Edge(sourceId, targetId) in edges
    ensures levels'.Keys == levels.Keys && Explains(levels', edges, walks')
    ensures forall id :: id in levels ==> levels[id] <= levels'[id]
    ensures !(sourceId in levels && targetId in levels) ==> levels' == levels
    ensures !moved ==> levels' == levels && Satisfied(levels, Edge(sourceId, targetId))
  {
    levels', walks', moved := levels, walks, false;
    if sourceId in levels && targetId in levels {
      var proposedLevel := levels[sourceId] + 1;
      if proposedLevel > levels[targetId] {
        MoveDownKeepsExplanation(levels, edges, walks, sourceId, targetId);
        walks' := walks[targetId := walks[sourceId] + [targetId]];
        levels' := levels[targetId := proposedLevel];
        moved := true;
      }
    }
  }

  /**
   * One pass over the links, in order. The ids keep their levels' explanations. A pass that
   * changes nothing has found a fixed point.
   */
  method RelaxationPass(links: seq<Link>, levels: map<string, nat>, ghost walks: map<string, seq<string>>)
    returns (levels': map<string, nat>, ghost walks': map<string, seq<string>>, changed: bool)
    requires Present(links) && Explains(levels, Edges(links), walks)
    ensures levels'.Keys == levels.Keys && Explains(levels', Edges(links), walks')
    ensures forall id :: id in levels ==> levels[id] <= levels'[id]
    ensures !changed ==> levels' == levels && Settled(levels, Edges(links))
  {
    ghost var edges := Edges(links);
    levels', walks', changed := levels, walks, false;
    for j := 0 to |links|
      invariant levels'.Keys == levels.Keys && Explains(levels', edges, walks')
      invariant forall id :: id in levels ==> levels[id] <= levels'[id]
      invariant !changed ==> levels' == levels && forall k :: 0 <= k < j ==> Satisfied(levels, edges[k])
    {
      var sourceId := State.EndpointId(links[j].source).value;
      var targetId := State.EndpointId(links[j].target).value;
      assert edges[j] == Edge(sourceId, targetId);
      var moved;
      levels', walks', moved := RelaxLink(levels', edges, walks', sourceId, targetId);
      changed := changed || moved;
    }
  }

  /**
   * `computeHierarchicalLevels(graph)`. `None` when some link has a missing endpoint: the
   * first pass reads every link's endpoint ids, so it throws before a result exists.
   * Otherwise every node id starts at level 0 and each pass relaxes the links in order,
   * until a pass changes nothing or 100 passes have run. `stable` reports that the last pass
   * changed nothing: the levels are then a fixed point, and with `Witnessed` each level is
   * the length of the longest walk ending at its id. A cycle through known ids therefore
   * always exhausts the 100 passes.
   */
  method ComputeHierarchicalLevels(g: Graph) returns (levels: Option<map<string, nat>>, passes: nat, stable: bool)
    ensures levels.None? <==> !Present(g.links)
    ensures levels.Some? ==> levels.value.Keys == NodeIds(g.nodes)
    ensures levels.Some? ==> Relaxed(levels.value, Edges(g.links), passes, stable)
  {
    if !Present(g.links) {
      return None, 0, false;
    }
    var lv := InitialLevels(g.nodes);
    ghost var walks: map<string, seq<string>> := map id | id in lv :: [id];
    var changed := true;
    passes := 0;
    while changed && passes < MaxPasses
      invariant lv.Keys == NodeIds(g.nodes) && Explains(lv, Edges(g.links), walks)
      invariant passes <= MaxPasses && (passes == 0 ==> changed)
      invariant !changed ==> Settled(lv, Edges(g.links))
      decreases MaxPasses - passes
    {
      lv, walks, changed := RelaxationPass(g.links, lv, walks);
      passes := passes + 1;
    }
    levels := Some(lv);
    stable := !changed;
    forall id | id in lv
      ensures exists w :: IsWalk(Edges(g.links), lv.Keys, w) && w[|w| - 1] == id && |w| == lv[id] + 1
    {
      assert IsWalk(Edges(g.links), lv.Keys, walks[id]);
    }
    if stable {
      SettledHasNoCycle(lv, Edges(g.links));
    }
  }

  /** The largest level of the nodes, 0 for no nodes (`Math.max(...Object.values(levels))`). */
  function MaxLevel(levels: map<string, nat>, nodes: seq<Node>): (r: nat)
    requires forall i :: 0 <= i < |nodes| ==> nodes[i].id in levels
    ensures forall i :: 0 <= i < |nodes| ==> levels[nodes[i].id] <= r
    ensures |nodes| > 0 ==> exists i :: 0 <= i < |nodes| && levels[nodes[i].id] == r
    decreases |nodes|
  {
    if |nodes| == 0 then 0
    else
      var rest := MaxLevel(levels, nodes[..|nodes| - 1]);
      var last := levels[nodes[|nodes| - 1].id];
      if |nodes| == 1 || last > rest then last else rest
  }

  /** The filter condition "sits at level `level`". */
  function AtLevel(levels: map<string, nat>, level: nat): Node -> bool
  {
    (n: Node) => n.id in levels && levels[n.id] == level
  }

  /** The row of a level: its nodes, in graph order. */
  function Group(levels: map<string, nat>, nodes: seq<Node>, level: nat): (r: seq<Node>)
    ensures forall i :: 0 <= i < |r| ==> r[i] in nodes && r[i].id in levels && levels[r[i].id] == level
    ensures forall i :: 0 <= i < |nodes| && nodes[i].id in levels && levels[nodes[i].id] == level ==> nodes[i] in r
  {
    Filter(nodes, AtLevel(levels, level))
  }

  /**
   * The pin a node received: in the row of its level, `levels` rows in all, in slot `s` of
   * its row (counting from 1) where the row has that very node at position `s`, and the row
   * has `slots - 1` nodes.
   */
  predicate Placed(n: Node, levels: map<string, nat>, nodes: seq<Node>, maxLevel: nat)
    reads n
    requires n.id in levels
  {
    && n.pin.Some?
    && n.pin.value.level == levels[n.id]
    && n.pin.value.levels == maxLevel + 1
    && n.pin.value.slots == |Group(levels, nodes, levels[n.id])| + 1
    && 1 <= n.pin.value.slot < n.pin.value.slots
    && Group(levels, nodes, levels[n.id])[n.pin.value.slot - 1] == n
  }

  /**
   * In a row without repeated node objects, a placed node's slot is its position: the
   * `i`-th node of the row has slot `i + 1`, so no two nodes of a row share a slot and rows
   * keep graph order.
   */
  lemma PlacedInRowOrder(levels: map<string, nat>, nodes: seq<Node>, maxLevel: nat, level: nat, i: nat)
    requires Distinct(Group(levels, nodes, level)) && i < |Group(levels, nodes, level)|
    requires Placed(Group(levels, nodes, level)[i], levels, nodes, maxLevel)
    ensures Group(levels, nodes, level)[i].pin
      == Some(Pin(i + 1, |Group(levels, nodes, level)| + 1, level, maxLevel + 1))
  {
    var row := Group(levels, nodes, level);
    var n := row[i];
    assert row[n.pin.value.slot - 1] == row[i];
  }

  /** One more node extends the row of its own level and no other. */
  lemma GroupStep(levels: map<string, nat>, nodes: seq<Node>, i: nat, level: nat)
    requires i < |nodes|
    ensures Group(levels, nodes[..i + 1], level)
      == Group(levels, nodes[..i], level) + (if AtLevel(levels, level)(nodes[i]) then [nodes[i]] else [])
  {
    assert nodes[..i + 1][..i] == nodes[..i];
  }

  /** `nodesByLevel`: each level that occurs, mapped to its row. */
  method GroupByLevel(levels: map<string, nat>, nodes: seq<Node>) returns (byLevel: map<nat, seq<Node>>)
    requires forall i :: 0 <= i < |nodes| ==> nodes[i].id in levels
    ensures forall level :: level in byLevel ==> byLevel[level] == Group(levels, nodes, level)
    ensures forall level :: level !in byLevel ==> Group(levels, nodes, level) == []
  {
    byLevel := map[];
    for i := 0 to |nodes|
      invariant forall level :: level in byLevel ==> byLevel[level] == Group(levels, nodes[..i], level)
      invariant forall level :: level !in byLevel ==> Group(levels, nodes[..i], level) == []
    {
      var node := nodes[i];
      var level := levels[node.id];
      forall l: nat {
        GroupStep(levels, nodes, i, l);
      }
      if level !in byLevel {
        byLevel := byLevel[level := []];
      }
      byLevel := byLevel[level := byLevel[level] + [node]];
    }
    assert nodes[..|nodes|] == nodes;
  }

  /** `n` is pinned in slot `s` of `row`, which holds `n` at position `s`, at `level` of `maxLevel + 1`. */
  predicate InRow(n: Node, row: seq<Node>, level: nat, maxLevel: nat)
    reads n
  {
    && n.pin.Some?
    && n.pin.value.slots == |row| + 1 && n.pin.value.level == level && n.pin.value.levels == maxLevel + 1
    && 1 <= n.pin.value.slot <= |row|
    && row[n.pin.value.slot - 1] == n
  }

  /**
   * Pin one row: the `i`-th node gets slot `i + 1` of `|row| + 1`, at `level` of
   * `maxLevel + 1`. A node listed twice keeps the slot of its last occurrence, so every
   * node's slot names a position of the row holding that node.
   */
  method PlaceRow(row: seq<Node>, level: nat, maxLevel: nat)
    modifies row
    ensures forall k :: 0 <= k < |row| ==> row[k].Unpinned() == old(row[k].Unpinned())
    ensures forall k :: 0 <= k < |row| ==> InRow(row[k], row, level, maxLevel)
  {
    for i := 0 to |row|
      invariant forall k :: 0 <= k < |row| ==> row[k].Unpinned() == old(row[k].Unpinned())
      invariant forall k :: 0 <= k < i ==> InRow(row[k], row, level, maxLevel)
    {
      row[i].pin := Some(Pin(i + 1, |row| + 1, level, maxLevel + 1));
    }
  }

  /**
   * Pin every row, in ascending level order (`Object.keys` lists integer keys ascending).
   * Afterwards every node is placed in the row of its level; only pins change.
   */
  method PlaceRows(levels: map<string, nat>, nodes: seq<Node>, byLevel: map<nat, seq<Node>>, maxLevel: nat)
    requires forall i :: 0 <= i < |nodes| ==> nodes[i].id in levels && levels[nodes[i].id] <= maxLevel
    requires forall level :: level in byLevel ==> byLevel[level] == Group(levels, nodes, level)
    requires forall level :: level !in byLevel ==> Group(levels, nodes, level) == []
    modifies nodes
    ensures forall i :: 0 <= i < |nodes| ==> nodes[i].Unpinned() == old(nodes[i].Unpinned())
    ensures forall i :: 0 <= i < |nodes| ==> Placed(nodes[i], levels, nodes, maxLevel)
  {
    for level := 0 to maxLevel + 1
      invariant forall i :: 0 <= i < |nodes| ==>   nodes[i].Unpinned() == old(nodes[i].Unpinned())
      invariant forall i :: 0 <= i < |nodes| && levels[nodes[i].id] >= level ==> unchanged(nodes[i])
      invariant forall i :: 0 <= i < |nodes| && levels[nodes[i].id] < level ==> Placed(nodes[i], levels, nodes, maxLevel)
    {
      if level in byLevel {
        var row := byLevel[level];
        PlaceRow(row, level, maxLevel);
        forall i | 0 <= i < |nodes| && levels[nodes[i].id] == level
          ensures Placed(nodes[i], levels, nodes, maxLevel)
        {
          assert nodes[i] in row;
        }
      }
    }
  }

  /**
   * Every node has a level and is pinned in the row of that level (`Placed`), with
   * `maxLevel + 1` rows.
   */
  predicate LaidOut(levels: map<string, nat>, nodes: seq<Node>)
    reads nodes
  {
    && (forall i :: 0 <= i < |nodes| ==> nodes[i].id in levels)
    && forall i :: 0 <= i < |nodes| ==> Placed(nodes[i], levels, nodes, MaxLevel(levels, nodes))
  }

  /** Between the two states of a call, every node keeps everything but its pin. */
  twostate predicate OnlyPinsChanged(nodes: seq<Node>)
    reads nodes
  {
    forall i :: 0 <= i < |nodes| ==> nodes[i].Unpinned() == old(nodes[i].Unpinned())
  }

  /**
   * The layout proper, once the levels exist: `maxLevel` is the largest level, the nodes are
   * grouped by level and every row is pinned. Only pins change.
   */
  method LayOut(levels: map<string, nat>, nodes: seq<Node>)
    requires levels.Keys == NodeIds(nodes)
    modifies nodes
    ensures OnlyPinsChanged(nodes)
    ensures LaidOut(levels, nodes)
  {
    assert forall i :: 0 <= i < |nodes| ==> nodes[i].id in NodeIds(nodes);
    var maxLevel := MaxLevel(levels, nodes);
    var byLevel := GroupByLevel(levels, nodes);
    PlaceRows(levels, nodes, byLevel, maxLevel);
  }

  /**
   * The value `computeHierarchicalLevels` returns, without the pass count and the stability
   * flag, which the source does not return. The levels are still those of some run of the
   * relaxation: each is explained by a walk of links, and so on as `Relaxed` says.
   */
  method LevelsOnly(g: Graph) returns (levels: Option<map<string, nat>>)
    ensures levels.None? <==> !Present(g.links)
    ensures levels.Some? ==> levels.value.Keys == NodeIds(g.nodes)
    ensures levels.Some? ==> Witnessed(levels.value, Edges(g.links))
    ensures levels.Some? ==> exists passes: nat, stable: bool :: Relaxed(levels.value, Edges(g.links), passes, stable)
  {
    var passes, stable;
    levels, passes, stable := ComputeHierarchicalLevels(g);
  }

  /**
   * `applyHierarchicalLayout(graph, width, height)`, with positions kept as indices. When
   * the levels cannot be computed nothing changes. Otherwise every node is pinned in the row
   * of its level (`Placed`), with `maxLevel + 1` rows, and only pins change. The levels are
   * those of the relaxation, each explained by a walk of links.
   */
  method ApplyHierarchicalLayout(g: Graph) returns (levels: Option<map<string, nat>>)
    modifies g.nodes
    ensures levels.None? <==> !old(Present(g.links))
    ensures levels.None? ==> forall n :: n in g.nodes ==> unchanged(n)
    ensures levels.Some? ==> levels.value.Keys == NodeIds(g.nodes)
    ensures levels.Some? ==> old(Present(g.links)) && Witnessed(levels.value, old(Edges(g.links)))
    ensures levels.Some? ==> OnlyPinsChanged(g.nodes)
    ensures levels.Some? ==> LaidOut(levels.value, g.nodes)
  {
    var computed := LevelsOnly(g);
    levels := computed;
    if computed.Some? {
      ghost var edges := Edges(g.links);
      assert Witnessed(computed.value, edges);
      LayOut(computed.value, g.nodes);
    }
  }
}
