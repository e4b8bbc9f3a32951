/**
 * `static/js/visualizer.js`: the older single-file front end. It shares rehydration, the
 * candidate list and the fill rule with the modular one, but its resolve click records no
 * `ambiguousData` and its link removal never turns a column back into an ambiguous one.
 */
module Legacy {
  import opened Wrappers
  import opened Seqs
  import opened GraphStore
  import State
  import Modals
  import GraphView

  /** The page: the module-level `graph` and the copy of `GRAPH_DATA` kept for reset. */
  class Visualizer {
    var graph: Graph
    const defaultGraph: GraphData

    /**
     * Page load: stored state, when present, is parsed into new objects; otherwise the graph
     * is `GRAPH_DATA` itself. `defaultGraph` is a copy of `GRAPH_DATA` taken before
     * rehydration. Then the graph is rehydrated in place.
     */
    constructor Load(graphData: Graph, stored: Option<GraphData>)
      modifies graphData.links
      ensures defaultGraph == old(graphData.Serialized())
      ensures stored.None? ==> graph == graphData && graph.nodes == old(graphData.nodes) && graph.links == old(graphData.links)
      ensures stored.Some? ==> fresh(graph) && graph.Valid()
      ensures stored.Some? ==> forall l :: l in graphData.links ==> unchanged(l)
      ensures graph.Serialized() == State.RehydratedData(if stored.Some? then stored.value else defaultGraph)
    {
      defaultGraph := graphData.Serialized();
      var g;
      if stored.Some? {
        g := Materialize(stored.value);
      } else {
        g := graphData;
      }
      State.RehydrateGraph(g);
      graph := g;
    }

    /**
     * The reset button: without a confirmation nothing changes. With one, the graph becomes
     * a new graph parsed from `defaultGraph`, rehydrated. As `defaultGraph` is a value no edit
     * reaches it, so every reset yields the same data. Storing the result and reloading the
     * page are outside effects.
     */
    method Reset(confirmed: bool)
      modifies this
      ensures !confirmed ==> graph == old(graph)
      ensures confirmed ==> fresh(graph) && graph.Valid()
      ensures confirmed ==> forall n :: n in graph.nodes ==> fresh(n)
      ensures confirmed ==> graph.Serialized() == State.RehydratedData(defaultGraph)
    {
      if confirmed {
        var g := Materialize(defaultGraph);
        State.RehydrateGraph(g);
        graph := g;
      }
    }

    /**
     * `removeLink(event, d)`: with a confirmation, every occurrence of the object `d` leaves
     * the links, the rest keep their order; no node changes, so nothing becomes ambiguous
     * again. Without one nothing changes.
     */
    method RemoveLink(confirmed: bool, d: Link)
      requires d.source != Plain(Missing) && d.target != Plain(Missing)
      modifies graph
      ensures graph == old(graph) && graph.nodes == old(graph.nodes)
      ensures !confirmed ==> graph.links == old(graph.links)
      ensures confirmed ==> graph.links == Filter(old(graph.links), GraphView.IsNot(d))
      ensures confirmed ==> d !in graph.links
      ensures old(graph.Valid()) ==> graph.Valid()
    {
      if confirmed {
        if graph.Valid() {
          FilterDistinct(graph.links, GraphView.IsNot(d));
        }
        graph.links := Filter(graph.links, GraphView.IsNot(d));
      }
    }

    /**
     * The click on candidate `chosen` while fixing column `col` of `nodeData`: one new manual
     * link without `ambiguousData` is appended; the first entry named `col.name` leaves the
     * list; `ambiguous` becomes false only when the list is now empty.
     */
    method ChooseCandidate(nodeData: Node, col: Column, chosen: Node) returns (link: Link)
      modifies graph, nodeData
      ensures fresh(link) && graph == old(graph)
      ensures graph.nodes == old(graph.nodes) && graph.links == old(graph.links) + [link]
      ensures link.Value() == LinkData(Raw(chosen.id), Raw(nodeData.id), col.name, true, None)
      ensures nodeData.ambiguousCols == Modals.RemoveFirstNamed(old(nodeData.ambiguousCols), col.name)
      ensures nodeData.ambiguous == (if |nodeData.ambiguousCols| == 0 then false else old(nodeData.ambiguous))
      ensures nodeData.wasAmbiguous == old(nodeData.wasAmbiguous)
      ensures nodeData.info == old(nodeData.info) && nodeData.pin == old(nodeData.pin)
      ensures old(graph.Valid()) ==> graph.Valid()
      ensures old(nodeData.Consistent()) ==> nodeData.Consistent() && !HasName(nodeData.ambiguousCols, col.name)
    {
      link := new Link.FromData(LinkData(Raw(chosen.id), Raw(nodeData.id), col.name, true, None));
      graph.links := graph.links + [link];
      var idx := Modals.FirstNamed(nodeData.ambiguousCols, col.name);
      if idx.Some? {
        nodeData.ambiguousCols := nodeData.ambiguousCols[..idx.value] + nodeData.ambiguousCols[idx.value + 1..];
      }
      if |nodeData.ambiguousCols| == 0 {
        nodeData.ambiguous := false;
      }
      if old(nodeData.Consistent()) {
        Modals.RemoveFirstNamedDropsName(old(nodeData.ambiguousCols), col.name);
      }
    }
  }

  /** Only nodes with unresolved columns react to a click (`ambiguousCols && length > 0`). */
  function Clickable(cols: Option<seq<Column>>): bool
  {
    cols.Some? && |cols.value| > 0
  }

  /** A node can be clicked to resolve exactly when it is drawn yellow. */
  lemma ClickableIffYellow(wasAmbiguous: bool, cols: Option<seq<Column>>)
    ensures Clickable(cols) <==> GraphView.FillOf(wasAmbiguous, cols) == GraphView.Yellow
  {
  }

  /**
   * Resolving here and then removing the link loses the column: the removal changes no
   * node, and the link carried no `ambiguousData` that could have restored it.
   */
  lemma ResolveThenRemoveLosesColumn(cols: seq<Column>, col: Column)
    requires NoDupNames(cols) && col in cols
    ensures !HasName(Modals.RemoveFirstNamed(cols, col.name), col.name)
    ensures |Modals.RemoveFirstNamed(cols, col.name)| == |cols| - 1
  {
    Modals.RemoveFirstNamedDropsName(cols, col.name);
  }
}
