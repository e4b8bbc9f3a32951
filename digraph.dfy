/**
 * The part of networkx's `DiGraph` that `graph/builder.py` relies on: nodes kept in insertion
 * order, each with an attribute dictionary, and at most one edge per ordered pair of nodes,
 * each with its own attribute dictionary. The successors of a node are kept in the order
 * their first edge was added, which is the order `edges()` reports them in.
 */
module DiGraphs {
  import opened Wrappers
  import opened Seqs
  import opened GraphStore

  /** A node's attribute dictionary, reduced to the keys the builder sets; `None`: key absent. */
  datatype NodeAttrs = NodeAttrs(
    info: Option<string>,
    ambiguous: Option<bool>,
    ambiguousCols: Option<seq<Column>>,
    wasAmbiguous: Option<bool>)

  /** An edge's attribute dictionary, reduced to the keys the builder sets. */
  datatype EdgeAttrs = EdgeAttrs(column: Option<string>, manual: Option<bool>)

  const NoNodeAttrs: NodeAttrs := NodeAttrs(None, None, None, None)
  const NoEdgeAttrs: EdgeAttrs := EdgeAttrs(None, None)

  /** `dict.update` on one key: a value given replaces the current one, an absent one keeps it. */
  function Update<T>(current: Option<T>, given: Option<T>): Option<T>
  {
    if given.Some? then given else current
  }

  function UpdateNode(current: NodeAttrs, given: NodeAttrs): NodeAttrs
  {
    NodeAttrs(
      Update(current.info, given.info),
      Update(current.ambiguous, given.ambiguous),
      Update(current.ambiguousCols, given.ambiguousCols),
      Update(current.wasAmbiguous, given.wasAmbiguous))
  }

  function UpdateEdge(current: EdgeAttrs, given: EdgeAttrs): EdgeAttrs
  {
    EdgeAttrs(Update(current.column, given.column), Update(current.manual, given.manual))
  }

  /**
   * The contents of a graph: the nodes in insertion order, their attributes, each node's
   * successors in order, and the attributes of each edge `(u, v)`.
   */
  datatype GraphState = GraphState(
    nodes: seq<string>,
    attrs: map<string, NodeAttrs>,
    succ: map<string, seq<string>>,
    edges: map<(string, string), EdgeAttrs>)

  const EmptyGraph: GraphState := GraphState([], map[], map[], map[])

  /**
   * The shape networkx maintains: every node has an attribute dictionary and a successor
   * list, every successor is a node, and every edge `(u, v)` (every successor `v` of `u`) has
   * an attribute dictionary.
   */
  ghost predicate WellFormed(d: GraphState)
  {
    && (forall n :: n in d.attrs <==> n in d.nodes)
    && (forall n :: n in d.succ <==> n in d.nodes)
    && (forall u, v :: u in d.succ && v in d.succ[u] ==> v in d.nodes && (u, v) in d.edges)
  }

  /** No node is listed twice, and no successor is listed twice for one node. */
  ghost predicate NoRepeats(d: GraphState)
  {
    Distinct(d.nodes) && forall u :: u in d.succ ==> Distinct(d.succ[u])
  }

  /**
   * `add_node(n, **a)`: a new node goes to the end of the node list with the attributes
   * given and no successors; an existing node keeps its place and has its attributes updated.
   */
  function WithNode(d: GraphState, n: string, a: NodeAttrs): (r: GraphState)
    requires WellFormed(d)
    ensures WellFormed(r)
    ensures n in r.nodes && r.attrs[n] == UpdateNode(if n in d.attrs then d.attrs[n] else NoNodeAttrs, a)
    ensures r.nodes == if n in d.nodes then d.nodes else d.nodes + [n]
    ensures forall m :: m in d.attrs && m != n ==> m in r.attrs && r.attrs[m] == d.attrs[m]
    ensures forall u :: u in r.succ <==> u in d.succ || u == n
    ensures forall u :: u in d.succ ==> r.succ[u] == d.succ[u]
    ensures n !in d.succ ==> r.succ[n] == []
    ensures r.edges == d.edges
  {
    if n in d.attrs then d.(attrs := d.attrs[n := UpdateNode(d.attrs[n], a)])
    else
      var r := d.(nodes := d.nodes + [n], attrs := d.attrs[n := a], succ := d.succ[n := []]);
      assert UpdateNode(NoNodeAttrs, a) == a;
      r
  }

  /** `add_node(n)` without attributes, as `add_edge` does for an endpoint it has not seen. */
  function WithEndpoint(d: GraphState, n: string): (r: GraphState)
    requires WellFormed(d)
    ensures WellFormed(r) && n in r.nodes
    ensures r.nodes == if n in d.nodes then d.nodes else d.nodes + [n]
    ensures forall m :: m in d.attrs ==> m in r.attrs && r.attrs[m] == d.attrs[m]
    ensures n !in d.attrs ==> r.attrs[n] == NoNodeAttrs
    ensures n !in d.succ ==> r.succ[n] == []
    ensures forall u :: u in r.succ <==> u in d.succ || u == n
    ensures forall u :: u in d.succ ==> r.succ[u] == d.succ[u]
    ensures r.edges == d.edges
  {
    if n in d.attrs then d else WithNode(d, n, NoNodeAttrs)
  }

  /** The first half of `add_edge(u, v, **e)`: `u`, then `v`, added without attributes when absent. */
  function WithEndpoints(d: GraphState, u: string, v: string): (r: GraphState)
    requires WellFormed(d)
    ensures WellFormed(r) && u in r.nodes && v in r.nodes
    ensures d.nodes <= r.nodes && forall m :: m in r.nodes ==> m in d.nodes || m == u || m == v
    ensures forall m :: m in d.attrs ==> m in r.attrs && r.attrs[m] == d.attrs[m]
    ensures forall m :: m in r.attrs && m !in d.attrs ==> r.attrs[m] == NoNodeAttrs
    ensures forall a :: a in d.succ ==> a in r.succ && r.succ[a] == d.succ[a]
    ensures forall a :: a in r.succ && a !in d.succ ==> r.succ[a] == []
    ensures r.edges == d.edges
  {
    WithEndpoint(WithEndpoint(d, u), v)
  }

  /**
   * The second half of `add_edge(u, v, **e)`, once both endpoints are nodes: `v` becomes the
   * last successor of `u` unless it already is one, and the edge's attributes are updated.
   */
  function WithSuccessor(d: GraphState, u: string, v: string, e: EdgeAttrs): (r: GraphState)
    requires WellFormed(d) && u in d.nodes && v in d.nodes
    ensures WellFormed(r) && r.nodes == d.nodes && r.attrs == d.attrs
    ensures (forall a :: a in r.succ <==> a in d.succ) && v in r.succ[u]
    ensures forall a, b :: a in d.succ && b in d.succ[a] ==> b in r.succ[a]
    ensures forall a, b :: a in r.succ && b in r.succ[a] ==> b in d.succ[a] || (a == u && b == v)
    ensures r.edges == d.edges[(u, v) := UpdateEdge(if (u, v) in d.edges then d.edges[(u, v)] else NoEdgeAttrs, e)]
  {
    var out := d.succ[u];
    var before := if (u, v) in d.edges then d.edges[(u, v)] else NoEdgeAttrs;
    var r := d.(
      succ := d.succ[u := if v in out then out else out + [v]],
      edges := d.edges[(u, v) := UpdateEdge(before, e)]);
    assert forall w :: w in r.succ[u] ==> w in out || w == v;
    r
  }

  /** Adding a node never lists a node twice. */
  lemma WithNodeNoRepeats(d: GraphState, n: string, a: NodeAttrs)
    requires WellFormed(d) && NoRepeats(d)
    ensures NoRepeats(WithNode(d, n, a))
  {
    var r := WithNode(d, n, a);
    if n !in d.nodes {
      DistinctAppend(d.nodes, n);
    }
    forall u | u in r.succ
      ensures Distinct(r.succ[u])
    {
      if u !in d.succ {
        assert r.succ[u] == [];
      }
    }
  }

  /** Adding a successor never lists a successor of one node twice. */
  lemma WithSuccessorNoRepeats(d: GraphState, u: string, v: string, e: EdgeAttrs)
    requires WellFormed(d) && NoRepeats(d) && u in d.nodes && v in d.nodes
    ensures NoRepeats(WithSuccessor(d, u, v, e))
  {
    var r := WithSuccessor(d, u, v, e);
    var out := d.succ[u];
    forall a | a in r.succ
      ensures Distinct(r.succ[a])
    {
      if a == u && v !in out {
        DistinctAppend(out, v);
      }
    }
  }

  /** Adding an edge never lists a node, or a successor of one node, twice. */
  lemma WithEdgeNoRepeats(d: GraphState, u: string, v: string, e: EdgeAttrs)
    requires WellFormed(d) && NoRepeats(d)
    ensures NoRepeats(WithEdge(d, u, v, e))
  {
    var d1 := WithEndpoint(d, u);
    WithNodeNoRepeats(d, u, NoNodeAttrs);
    var d2 := WithEndpoint(d1, v);
    WithNodeNoRepeats(d1, v, NoNodeAttrs);
    WithSuccessorNoRepeats(d2, u, v, e);
  }

  /**
   * `add_edge(u, v, **e)`: `u` and then `v` are added as attribute-less nodes when absent;
   * `v` becomes the last successor of `u` unless it already is one; the edge's attributes
   * are updated. There is never more than one edge from `u` to `v`.
   */
  function WithEdge(d: GraphState, u: string, v: string, e: EdgeAttrs): (r: GraphState)
    requires WellFormed(d)
    ensures WellFormed(r)
    ensures u in r.nodes && v in r.nodes && v in r.succ[u]
    ensures forall a, b :: a in d.succ && b in d.succ[a] ==> a in r.succ && b in r.succ[a]
    ensures forall a, b :: a in r.succ && b in r.succ[a] ==> (a in d.succ && b in d.succ[a]) || (a == u && b == v)
    ensures (u, v) in r.edges && r.edges[(u, v)] == UpdateEdge(if (u, v) in d.edges then d.edges[(u, v)] else NoEdgeAttrs, e)
    ensures forall p :: p in d.edges && p != (u, v) ==> p in r.edges && r.edges[p] == d.edges[p]
    ensures d.nodes <= r.nodes && forall m :: m in r.nodes ==> m in d.nodes || m == u || m == v
    ensures forall m :: m in d.attrs ==> m in r.attrs && r.attrs[m] == d.attrs[m]
    ensures forall m :: m in r.attrs && m !in d.attrs ==> r.attrs[m] == NoNodeAttrs
  {
    WithSuccessor(WithEndpoints(d, u, v), u, v, e)
  }

  /** A networkx `DiGraph` object, mutated in place by `add_node` and `add_edge`. */
  class DiGraph {
    var nodes: seq<string>
    var attrs: map<string, NodeAttrs>
    var succ: map<string, seq<string>>
    var edges: map<(string, string), EdgeAttrs>

    function Value(): GraphState
      reads this
    {
      GraphState(nodes, attrs, succ, edges)
    }

    ghost predicate Valid()
      reads this
    {
      WellFormed(Value())
    }

    /** `nx.DiGraph()`: no nodes and no edges. */
    constructor ()
      ensures Value() == EmptyGraph && Valid()
    {
      nodes, attrs, succ, edges := [], map[], map[], map[];
    }

    method AddNode(n: string, a: NodeAttrs)
      requires Valid()
      modifies this
      ensures Value() == WithNode(old(Value()), n, a) && Valid()
    {
      if n !in attrs {
        nodes := nodes + [n];
        attrs := attrs[n := a];
        succ := succ[n := []];
        assert UpdateNode(NoNodeAttrs, a) == a;
      } else {
        attrs := attrs[n := UpdateNode(attrs[n], a)];
      }
    }

    method AddEdge(u: string, v: string, e: EdgeAttrs)
      requires Valid()
      modifies this
      ensures Value() == WithEdge(old(Value()), u, v, e) && Valid()
    {
      if u !in attrs {
        AddNode(u, NoNodeAttrs);
      }
      if v !in attrs {
        AddNode(v, NoNodeAttrs);
      }
      assert Value() == WithEndpoint(WithEndpoint(old(Value()), u), v);
      LinkSuccessor(u, v, e);
    }

    /** The second half of `add_edge`, once both endpoints are nodes. */
    method LinkSuccessor(u: string, v: string, e: EdgeAttrs)
      requires Valid() && u in nodes && v in nodes
      modifies this
      ensures Value() == WithSuccessor(old(Value()), u, v, e) && Valid()
    {
      var datadict := if (u, v) in edges then edges[(u, v)] else NoEdgeAttrs;
      if v !in succ[u] {
        succ := succ[u := succ[u] + [v]];
      }
      edges := edges[(u, v) := UpdateEdge(datadict, e)];
    }
  }
}
