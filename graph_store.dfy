/**
 * The front end's graph, in two forms.
 *
 * As plain data (`GraphData`): what the page is given as `GRAPH_DATA`, what `localStorage`
 * holds and what import/export exchange. A link endpoint there is an id string, an object that
 * carries an `id`, or absent.
 *
 * As live objects (`Graph`, `Node`, `Link`): what the handlers mutate in place. After
 * rehydration a link endpoint is a reference to a `Node` object.
 */
module GraphStore {
  import opened Wrappers
  import opened Seqs

  /** One unresolved column of a node: its name and the hint shown beside it. */
  datatype Column = Column(name: string, hint: string)

  /**
   * A pinned position (`fx`, `fy`) kept as indices: the node sits in horizontal slot `slot`
   * of `slots` (fx = width * slot / slots) and at vertical fraction `level / levels`
   * (fy = height * level / levels).
   */
  datatype Pin = Pin(slot: nat, slots: nat, level: nat, levels: nat)

  /** An endpoint as JSON holds it: absent (`undefined`/`null`), an id string, or an object with an `id`. */
  datatype EndpointData = Missing | Raw(id: string) | Obj(id: string)

  datatype NodeData = NodeData(
    id: string,
    info: string,
    ambiguousCols: seq<Column>,
    ambiguous: bool,
    wasAmbiguous: bool,
    pin: Option<Pin>)

  datatype LinkData = LinkData(
    source: EndpointData,
    target: EndpointData,
    column: string,
    manual: bool,
    ambiguousData: Option<Column>)

  datatype GraphData = GraphData(nodes: seq<NodeData>, links: seq<LinkData>)

  /** No two entries of an ambiguous-column list share a name. */
  predicate NoDupNames(cols: seq<Column>)
  {
    forall i, j :: 0 <= i < j < |cols| ==> cols[i].name != cols[j].name
  }

  /** Some entry of the list has this name. */
  predicate HasName(cols: seq<Column>, name: string)
  {
    exists i :: 0 <= i < |cols| && cols[i].name == name
  }

  /** A table of the diagram. Its id never changes; everything else is updated in place. */
  class Node {
    const id: string
    var info: string
    var ambiguousCols: seq<Column>
    var ambiguous: bool
    var wasAmbiguous: bool
    var pin: Option<Pin>

    /** A node object parsed from JSON. */
    constructor FromData(d: NodeData)
      ensures Value() == d
    {
      id := d.id;
      info := d.info;
      ambiguousCols := d.ambiguousCols;
      ambiguous := d.ambiguous;
      wasAmbiguous := d.wasAmbiguous;
      pin := d.pin;
    }

    /** The node as `JSON.stringify` writes it. */
    function Value(): NodeData
      reads this
    {
      NodeData(id, info, ambiguousCols, ambiguous, wasAmbiguous, pin)
    }

    /** Everything about the node except its pinned position. */
    function Unpinned(): NodeData
      reads this
    {
      NodeData(id, info, ambiguousCols, ambiguous, wasAmbiguous, None)
    }

    /**
     * The ambiguity bookkeeping: `ambiguous` holds exactly when some column is unresolved,
     * and no column name is listed twice.
     */
    ghost predicate Consistent()
      reads this
    {
      ambiguous == (|ambiguousCols| > 0) && NoDupNames(ambiguousCols)
    }
  }

  /** A live endpoint: still in its JSON form, or a reference to a node object. */
  datatype Endpoint = Plain(data: EndpointData) | Ref(node: Node)

  /** An endpoint after `JSON.stringify` and `JSON.parse`: a node object keeps its `id`. */
  function Serialize(e: Endpoint): EndpointData
  {
    match e
    case Plain(d) => d
    case Ref(n) => Obj(n.id)
  }

  /** The ids of node objects, in order (ids never change, so nothing is read). */
  function IdsOf(nodes: seq<Node>): (ids: seq<string>)
    ensures |ids| == |nodes| && forall i :: 0 <= i < |nodes| ==> ids[i] == nodes[i].id
  {
    seq(|nodes|, i requires 0 <= i < |nodes| => nodes[i].id)
  }

  /** A connection: `target`'s column `column` refers to `source`. */
  class Link {
    var source: Endpoint
    var target: Endpoint
    var column: string
    var manual: bool
    var ambiguousData: Option<Column>

    /** A link object parsed from JSON: its endpoints are still in their JSON form. */
    constructor FromData(d: LinkData)
      ensures Value() == d
      ensures source == Plain(d.source) && target == Plain(d.target)
    {
      source := Plain(d.source);
      target := Plain(d.target);
      column := d.column;
      manual := d.manual;
      ambiguousData := d.ambiguousData;
    }

    /** The link as `JSON.stringify` writes it. */
    function Value(): LinkData
      reads this
    {
      LinkData(Serialize(source), Serialize(target), column, manual, ambiguousData)
    }
  }

  /** The `{nodes, links}` object the handlers share. */
  class Graph {
    var nodes: seq<Node>
    var links: seq<Link>

    /**
     * Every graph the application builds comes from parsed JSON or from `push` of a new
     * object, so no node object and no link object is listed twice.
     */
    ghost predicate Valid()
      reads this
    {
      Distinct(nodes) && Distinct(links)
    }

    /** The graph as `JSON.stringify` writes it. */
    function Serialized(): (d: GraphData)
      reads this, nodes, links
      ensures |d.nodes| == |nodes| && |d.links| == |links|
    {
      GraphData(
        seq(|nodes|, i reads this, nodes requires 0 <= i < |nodes| => nodes[i].Value()),
        seq(|links|, i reads this, links requires 0 <= i < |links| => links[i].Value()))
    }
  }

  /** Fresh node objects for parsed node records, one per record, in order. */
  method MaterializeNodes(ds: seq<NodeData>) returns (ns: seq<Node>)
    ensures |ns| == |ds| && Distinct(ns)
    ensures forall i :: 0 <= i < |ns| ==> fresh(ns[i]) && ns[i].Value() == ds[i]
  {
    ns := [];
    for i := 0 to |ds|
      invariant |ns| == i && Distinct(ns)
      invariant forall j :: 0 <= j < i ==> fresh(ns[j]) && ns[j].Value() == ds[j]
    {
      var n := new Node.FromData(ds[i]);
      ns := ns + [n];
    }
  }

  /** Fresh link objects for parsed link records, endpoints still in JSON form. */
  method MaterializeLinks(ds: seq<LinkData>) returns (ls: seq<Link>)
    ensures |ls| == |ds| && Distinct(ls)
    ensures forall i :: 0 <= i < |ls| ==> fresh(ls[i]) && ls[i].Value() == ds[i]
    ensures forall i :: 0 <= i < |ls| ==> ls[i].source == Plain(ds[i].source) && ls[i].target == Plain(ds[i].target)
  {
    ls := [];
    for i := 0 to |ds|
      invariant |ls| == i && Distinct(ls)
      invariant forall j :: 0 <= j < i ==> fresh(ls[j]) && ls[j].Value() == ds[j]
      invariant forall j :: 0 <= j < i ==> ls[j].source == Plain(ds[j].source) && ls[j].target == Plain(ds[j].target)
    {
      var l := new Link.FromData(ds[i]);
      ls := ls + [l];
    }
  }

  /**
   * `JSON.parse` of a graph: a new graph object whose nodes and links are new objects
   * holding exactly the parsed values. Nothing is shared with any existing object.
   */
  method Materialize(d: GraphData) returns (g: Graph)
    ensures fresh(g) && g.Valid()
    ensures forall i :: 0 <= i < |g.nodes| ==> fresh(g.nodes[i])
    ensures forall i :: 0 <= i < |g.links| ==> fresh(g.links[i])
    ensures g.Serialized() == d
    ensures forall i :: 0 <= i < |g.links| ==>
      g.links[i].source == Plain(d.links[i].source) && g.links[i].target == Plain(d.links[i].target)
  {
    var ns := MaterializeNodes(d.nodes);
    var ls := MaterializeLinks(d.links);
    g := new Graph;
    g.nodes, g.links := ns, ls;
    assert g.Serialized().nodes == d.nodes;
    assert g.Serialized().links == d.links;
  }
}
