/**
 * `static/js/state.js`: the shared graph and its reset copy, and rehydration, which turns
 * the endpoints of every link into references to the node objects with those ids.
 */
module State {
  import opened Wrappers
  import opened Seqs
  import opened GraphStore

  /**
   * The id an endpoint names: an object (a node or a parsed copy of one) gives its `id`;
   * an id string is the id itself; `undefined` and `null` name no node.
   */
  function EndpointId(e: Endpoint): (r: Option<string>)
    ensures r.None? <==> e == Plain(Missing)
  {
    match e
    case Ref(n) => Some(n.id)
    case Plain(Raw(id)) => Some(id)
    case Plain(Obj(id)) => Some(id)
    case Plain(Missing) => None
  }

  /**
   * The position of the LAST node with this id: `new Map(nodes.map(n => [n.id, n]))` keeps,
   * for a repeated id, the node listed last.
   */
  function LastIndex(nodes: seq<Node>, id: string): (r: Option<nat>)
    ensures r.Some? ==> r.value < |nodes| && nodes[r.value].id == id
    ensures r.Some? ==> forall j :: r.value < j < |nodes| ==> nodes[j].id != id
    ensures r.None? <==> forall j :: 0 <= j < |nodes| ==> nodes[j].id != id
    decreases |nodes|
  {
    if |nodes| == 0 then None
    else if nodes[|nodes| - 1].id == id then Some(|nodes| - 1)
    else LastIndex(nodes[..|nodes| - 1], id)
  }

  /** `nodeMap.get(id)`: the node object with that id, or `undefined`. */
  function Lookup(nodes: seq<Node>, id: Option<string>): (r: Endpoint)
  {
    if id.None? then Plain(Missing)
    else match LastIndex(nodes, id.value)
      case Some(k) => Ref(nodes[k])
      case None => Plain(Missing)
  }

  /** What rehydration stores in an endpoint. */
  function Resolve(nodes: seq<Node>, e: Endpoint): Endpoint
  {
    Lookup(nodes, EndpointId(e))
  }

  /**
   * An endpoint resolves to a node exactly when some node has the id it names; that node
   * has the id, and no later node does. Otherwise it resolves to `undefined`.
   */
  lemma ResolveFindsLastWithId(nodes: seq<Node>, e: Endpoint)
    ensures Resolve(nodes, e).Ref? <==> exists k :: 0 <= k < |nodes| && Some(nodes[k].id) == EndpointId(e)
    ensures Resolve(nodes, e).Ref? ==>
      exists k :: 0 <= k < |nodes| && nodes[k] == Resolve(nodes, e).node && Some(nodes[k].id) == EndpointId(e)
        && forall j :: k < j < |nodes| ==> Some(nodes[j].id) != EndpointId(e)
    ensures !Resolve(nodes, e).Ref? ==> Resolve(nodes, e) == Plain(Missing)
  {
    var id := EndpointId(e);
    if id.Some? {
      var r := LastIndex(nodes, id.value);
      if r.Some? {
        assert nodes[r.value] == Resolve(nodes, e).node;
      }
    }
  }

  /** Rehydrating an already rehydrated endpoint changes nothing. */
  lemma ResolveIdempotent(nodes: seq<Node>, e: Endpoint)
    ensures Resolve(nodes, Resolve(nodes, e)) == Resolve(nodes, e)
  {
    var r := Resolve(nodes, e);
    if r.Ref? {
      var k := LastIndex(nodes, EndpointId(e).value).value;
      assert LastIndex(nodes, r.node.id).Some?;
    }
  }

  /** Two node lists with the same ids, position by position, resolve an id to the same position. */
  lemma {:induction false} LastIndexSameIds(a: seq<Node>, b: seq<Node>, id: string)
    requires |a| == |b|
    requires forall i :: 0 <= i < |a| ==> a[i].id == b[i].id
    ensures LastIndex(a, id) == LastIndex(b, id)
    decreases |a|
  {
    if |a| > 0 && a[|a| - 1].id != id {
      LastIndexSameIds(a[..|a| - 1], b[..|b| - 1], id);
    }
  }

  /**
   * Round trip: serialise a rehydrated endpoint, parse it into a graph whose nodes carry the
   * same ids, rehydrate again: the endpoint names the same id as before, and it is the node
   * at the same position of the new node list.
   */
  lemma RehydrateSerializedCopy(nodes: seq<Node>, copies: seq<Node>, e: Endpoint)
    requires |nodes| == |copies|
    requires forall i :: 0 <= i < |nodes| ==> nodes[i].id == copies[i].id
    ensures EndpointId(Resolve(copies, Plain(Serialize(Resolve(nodes, e))))) == EndpointId(Resolve(nodes, e))
    ensures Resolve(nodes, e).Ref? ==> Resolve(copies, Plain(Serialize(Resolve(nodes, e)))).Ref?
  {
    var r := Resolve(nodes, e);
    if r.Ref? {
      var k := LastIndex(nodes, EndpointId(e).value).value;
      assert EndpointId(Plain(Serialize(r))) == Some(r.node.id);
      LastIndexSameIds(nodes, copies, r.node.id);
      ResolveIdempotent(nodes, e);
    }
  }

  /** The ids of node records, in order. */
  function RecordIds(nodes: seq<NodeData>): (ids: seq<string>)
    ensures |ids| == |nodes| && forall i :: 0 <= i < |nodes| ==> ids[i] == nodes[i].id
  {
    seq(|nodes|, i requires 0 <= i < |nodes| => nodes[i].id)
  }

  /**
   * What a rehydrated endpoint looks like once serialised, computed from the JSON form
   * alone: an object carrying the id it names when some node has that id, else absent.
   */
  function ResolvedData(ids: seq<string>, e: EndpointData): (r: EndpointData)
    ensures r == Missing || (!e.Missing? && e.id in ids && r == Obj(e.id))
    ensures !e.Missing? && e.id in ids ==> r == Obj(e.id)
  {
    match EndpointId(Plain(e))
    case None => Missing
    case Some(id) => if id in ids then Obj(id) else Missing
  }

  /** A graph as plain data after rehydration and serialisation: only endpoints change. */
  function RehydratedData(d: GraphData): (r: GraphData)
    ensures r.nodes == d.nodes && |r.links| == |d.links|
    ensures forall i :: 0 <= i < |d.links| ==>
      && r.links[i].source == ResolvedData(RecordIds(d.nodes), d.links[i].source)
      && r.links[i].target == ResolvedData(RecordIds(d.nodes), d.links[i].target)
      && r.links[i].column == d.links[i].column
      && r.links[i].manual == d.links[i].manual
      && r.links[i].ambiguousData == d.links[i].ambiguousData
  {
    var ids := RecordIds(d.nodes);
    GraphData(d.nodes, seq(|d.links|, i requires 0 <= i < |d.links| =>
      d.links[i].(source := ResolvedData(ids, d.links[i].source), target := ResolvedData(ids, d.links[i].target))))
  }

  /** Serialising a rehydrated endpoint gives `ResolvedData` of the endpoint's JSON form. */
  lemma SerializeResolved(nodes: seq<Node>, e: Endpoint)
    ensures Serialize(Resolve(nodes, e)) == ResolvedData(IdsOf(nodes), Serialize(e))
  {
    var id := EndpointId(e);
    if id.Some? && LastIndex(nodes, id.value).Some? {
      assert IdsOf(nodes)[LastIndex(nodes, id.value).value] == id.value;
    }
  }

  /**
   * Rehydration seen as data: resolving endpoints that were already resolved changes
   * nothing, so rehydrating twice is rehydrating once.
   */
  lemma RehydratedDataIdempotent(d: GraphData)
    ensures RehydratedData(RehydratedData(d)) == RehydratedData(d)
  {
    var once := RehydratedData(d);
    var twice := RehydratedData(once);
    assert RecordIds(once.nodes) == RecordIds(d.nodes);
    forall i | 0 <= i < |d.links|
      ensures twice.links[i] == once.links[i]
    {
    }
  }

  /**
   * `rehydrateGraph(g)`: every link's source and target become the node objects with the
   * ids they name (or `undefined`). Links keep their number, order and other fields; the
   * node list and every node object are untouched. As data, the graph becomes
   * `RehydratedData` of what it was.
   */
  method RehydrateGraph(g: Graph)
    modifies g.links
    ensures g.nodes == old(g.nodes) && g.links == old(g.links)
    ensures forall i :: 0 <= i < |g.links| ==>
      && g.links[i].source == Resolve(g.nodes, old(g.links[i].source))
      && g.links[i].target == Resolve(g.nodes, old(g.links[i].target))
      && g.links[i].column == old(g.links[i].column)
      && g.links[i].manual == old(g.links[i].manual)
      && g.links[i].ambiguousData == old(g.links[i].ambiguousData)
    ensures forall n :: n in g.nodes ==> unchanged(n)
    ensures g.Serialized() == RehydratedData(old(g.Serialized()))
  {
    RehydrateLinks(g);
    ghost var before := old(g.Serialized());
    ghost var after := g.Serialized();
    assert after.nodes == before.nodes;
    assert RecordIds(before.nodes) == IdsOf(g.nodes);
    forall i | 0 <= i < |g.links|
      ensures after.links[i] == RehydratedData(before).links[i]
    {
      SerializeResolved(g.nodes, old(g.links[i].source));
      SerializeResolved(g.nodes, old(g.links[i].target));
    }
  }

  /** One step of the loop: both endpoints of `link` become what they resolve to. */
  method RehydrateLink(link: Link, nodes: seq<Node>)
    modifies link
    ensures link.source == Resolve(nodes, old(link.source)) && link.target == Resolve(nodes, old(link.target))
    ensures link.column == old(link.column) && link.manual == old(link.manual)
    ensures link.ambiguousData == old(link.ambiguousData)
  {
    var sourceId := EndpointId(link.source);
    var targetId := EndpointId(link.target);
    link.source := Lookup(nodes, sourceId);
    link.target := Lookup(nodes, targetId);
  }

  /** The loop of `rehydrateGraph`. */
  method RehydrateLinks(g: Graph)
    modifies g.links
    ensures g.nodes == old(g.nodes) && g.links == old(g.links)
    ensures forall i :: 0 <= i < |g.links| ==>
      && g.links[i].source == Resolve(g.nodes, old(g.links[i].source))
      && g.links[i].target == Resolve(g.nodes, old(g.links[i].target))
      && g.links[i].column == old(g.links[i].column)
      && g.links[i].manual == old(g.links[i].manual)
      && g.links[i].ambiguousData == old(g.links[i].ambiguousData)
    ensures forall n :: n in g.nodes ==> unchanged(n)
  {
    var nodes, links := g.nodes, g.links;
    for i := 0 to |links|
      invariant g.nodes == nodes && g.links == links
      invariant forall j :: 0 <= j < |links| ==>
        && links[j].source == (if links[j] in links[..i] then Resolve(nodes, old(links[j].source)) else old(links[j].source))
        && links[j].target == (if links[j] in links[..i] then Resolve(nodes, old(links[j].target)) else old(links[j].target))
        && links[j].column == old(links[j].column)
        && links[j].manual == old(links[j].manual)
        && links[j].ambiguousData == old(links[j].ambiguousData)
    {
      var link := links[i];
      ResolveIdempotent(nodes, old(link.source));
      ResolveIdempotent(nodes, old(link.target));
      RehydrateLink(link, nodes);
      assert links[..i + 1] == links[..i] + [link];
    }
    assert links[..|links|] == links;
  }

  /** The module-level `graph` and `defaultGraph` of `state.js`. */
  class StateModule {
    var graph: Graph?
    var defaultGraph: Option<GraphData>

    /** Before `loadGraph` runs, both are `undefined`. */
    constructor ()
      ensures graph == null && defaultGraph == None
    {
      graph := null;
      defaultGraph := None;
    }

    /**
     * `loadGraph(defaultData)`, with the stored state passed in: `None` when `localStorage`
     * has no `graphState`, otherwise the parsed stored graph. Stored state wins; without it
     * the graph IS `defaultData` (the same object). `defaultGraph` is always a copy of
     * `defaultData` as it is now; being a value, no later edit of any object can change it.
     */
    method LoadGraph(defaultData: Graph, stored: Option<GraphData>) returns (g: Graph)
      modifies this
      ensures graph == g
      ensures stored.None? ==> g == defaultData
      ensures stored.Some? ==> fresh(g) && g.Valid() && g.Serialized() == stored.value
      ensures stored.Some? ==> forall n :: n in g.nodes ==> fresh(n)
      ensures defaultGraph == Some(defaultData.Serialized())
      ensures unchanged(defaultData) && forall n :: n in defaultData.nodes ==> unchanged(n)
    {
      if stored.Some? {
        g := Materialize(stored.value);
      } else {
        g := defaultData;
      }
      graph := g;
      defaultGraph := Some(defaultData.Serialized());
    }
  }
}
