/**
 * `static/js/modals.js`: choosing the table an ambiguous column refers to (the candidate
 * list, its search filter and the click that records the choice), and importing a graph.
 */
module Modals {
  import opened Wrappers
  import opened Seqs
  import opened Text
  import opened GraphStore
  import State

  /** The filter condition of the candidate list: a different id from the node being fixed. */
  function OtherThan(target: Node): Node -> bool
  {
    (n: Node) => n.id != target.id
  }

  /**
   * The tables offered for a column of `target`: every node whose id differs from the
   * target's, in graph order. The target itself is never offered.
   */
  function Candidates(nodes: seq<Node>, target: Node): (r: seq<Node>)
    ensures target !in r
    ensures forall i :: 0 <= i < |r| ==> r[i] in nodes && r[i].id != target.id
    ensures forall i :: 0 <= i < |nodes| && nodes[i].id != target.id ==> nodes[i] in r
  {
    Filter(nodes, OtherThan(target))
  }

  /** The condition of the search box: the lower-cased id contains the lower-cased text. */
  function Matching(text: string): Node -> bool
  {
    (n: Node) => Contains(Lower(n.id), Lower(text))
  }

  /**
   * The candidates shown for the text typed so far: exactly those whose lower-cased id
   * contains the lower-cased text, in their order.
   */
  function FilterCandidates(candidates: seq<Node>, text: string): (r: seq<Node>)
    ensures forall i :: 0 <= i < |r| ==> r[i] in candidates && Contains(Lower(r[i].id), Lower(text))
    ensures forall i :: 0 <= i < |candidates| && Contains(Lower(candidates[i].id), Lower(text)) ==> candidates[i] in r
  {
    Filter(candidates, Matching(text))
  }

  /** The list first shown, for the empty text, is every candidate. */
  lemma EmptySearchShowsAll(candidates: seq<Node>)
    ensures FilterCandidates(candidates, "") == candidates
  {
    forall i | 0 <= i < |candidates|
      ensures Matching("")(candidates[i])
    {
      ContainsEmpty(Lower(candidates[i].id));
    }
    FilterKeepsAll(candidates, Matching(""));
  }

  /** Search is case-insensitive: text differing only in ASCII case shows the same list. */
  lemma SearchIgnoresCase(candidates: seq<Node>, text: string, text': string)
    requires Lower(text) == Lower(text')
    ensures FilterCandidates(candidates, text) == FilterCandidates(candidates, text')
  {
    assert Matching(text) == Matching(text');
  }

  /** `findIndex(x => x[0] === name)`: the position of the first entry with this name. */
  function FirstNamed(cols: seq<Column>, name: string): (r: Option<nat>)
    ensures r.Some? ==> r.value < |cols| && cols[r.value].name == name
    ensures r.Some? ==> forall j :: 0 <= j < r.value ==> cols[j].name != name
    ensures r.None? <==> !HasName(cols, name)
    decreases |cols|
  {
    if |cols| == 0 then None
    else if cols[0].name == name then Some(0)
    else match FirstNamed(cols[1..], name)
      case None => None
      case Some(k) => Some(k + 1)
  }

  /** `splice(findIndex(...), 1)`: the list without its first entry of this name, if any. */
  function RemoveFirstNamed(cols: seq<Column>, name: string): (r: seq<Column>)
    ensures !HasName(cols, name) ==> r == cols
    ensures HasName(cols, name) ==> |r| == |cols| - 1
    ensures forall c :: c in r ==> c in cols
  {
    match FirstNamed(cols, name)
    case None => cols
    case Some(k) => cols[..k] + cols[k + 1..]
  }

  /** The filter condition "has a different name". */
  function NameIsNot(name: string): Column -> bool
  {
    (c: Column) => c.name != name
  }

  /** Taking one entry out of a list without repeated names leaves none of its name. */
  lemma WithoutEntry(cols: seq<Column>, k: nat)
    requires NoDupNames(cols) && k < |cols|
    ensures NoDupNames(cols[..k] + cols[k + 1..])
    ensures !HasName(cols[..k] + cols[k + 1..], cols[k].name)
  {
    var r := cols[..k] + cols[k + 1..];
    assert forall i :: 0 <= i < |r| ==> r[i] == if i < k then cols[i] else cols[i + 1];
  }

  /**
   * On a list without repeated names, removing the first entry of a name is filtering that
   * name out: every other entry stays, in its order.
   */
  lemma RemoveFirstNamedKeepsOthers(cols: seq<Column>, name: string)
    requires NoDupNames(cols)
    ensures RemoveFirstNamed(cols, name) == Filter(cols, NameIsNot(name))
  {
    var r := FirstNamed(cols, name);
    if r.None? {
      FilterKeepsAll(cols, NameIsNot(name));
    } else {
      FilterAround(cols, r.value, NameIsNot(name));
    }
  }

  /**
   * On a list without repeated names, removing the first entry of a name removes that name
   * altogether, and the list still has no repeated names.
   */
  lemma RemoveFirstNamedDropsName(cols: seq<Column>, name: string)
    requires NoDupNames(cols)
    ensures !HasName(RemoveFirstNamed(cols, name), name)
    ensures NoDupNames(RemoveFirstNamed(cols, name))
  {
    var r := FirstNamed(cols, name);
    if r.Some? {
      WithoutEntry(cols, r.value);
    }
  }

  /**
   * The click on a candidate (`chosen`) while fixing column `col` of `nodeData`: one new
   * manual link from `chosen` to `nodeData` that remembers `col`, appended after the existing
   * links, which are untouched; the first entry named `col.name` leaves `nodeData`'s list;
   * `ambiguous` becomes false only when the list is now empty; `wasAmbiguous` is untouched.
   * The ambiguity bookkeeping survives, and with unique names the column is gone.
   */
  method ChooseCandidate(g: Graph, nodeData: Node, col: Column, chosen: Node) returns (link: Link)
    modifies g, nodeData
    ensures fresh(link)
    ensures g.nodes == old(g.nodes) && g.links == old(g.links) + [link]
    ensures link.Value() == LinkData(Raw(chosen.id), Raw(nodeData.id), col.name, true, Some(col))
    ensures nodeData.ambiguousCols == RemoveFirstNamed(old(nodeData.ambiguousCols), col.name)
    ensures nodeData.ambiguous == (if |nodeData.ambiguousCols| == 0 then false else old(nodeData.ambiguous))
    ensures nodeData.wasAmbiguous == old(nodeData.wasAmbiguous)
    ensures nodeData.info == old(nodeData.info) && nodeData.pin == old(nodeData.pin)
    ensures old(g.Valid()) ==> g.Valid()
    ensures old(nodeData.Consistent()) ==> nodeData.Consistent() && !HasName(nodeData.ambiguousCols, col.name)
  {
    link := new Link.FromData(LinkData(Raw(chosen.id), Raw(nodeData.id), col.name, true, Some(col)));
    g.links := g.links + [link];
    var idx := FirstNamed(nodeData.ambiguousCols, col.name);
    if idx.Some? {
      nodeData.ambiguousCols := nodeData.ambiguousCols[..idx.value] + nodeData.ambiguousCols[idx.value + 1..];
    }
    if |nodeData.ambiguousCols| == 0 {
      nodeData.ambiguous := false;
    }
    if old(nodeData.Consistent()) {
      RemoveFirstNamedDropsName(old(nodeData.ambiguousCols), col.name);
    }
  }

  /**
   * A successfully parsed import: `nodes` and `links` as the parsed value has them, `None`
   * where the property is missing.
   */
  datatype ImportPayload = ImportPayload(nodes: Option<seq<NodeData>>, links: Option<seq<LinkData>>)

  /** What the import button reports. */
  datatype ImportOutcome = Imported | InvalidJson | RehydrateFailed

  /**
   * The import handlers (text box and file). `parsed` is `None` when `JSON.parse` throws or
   * yields `null`, before anything is assigned: the graph is untouched. Otherwise the graph's
   * nodes and links are replaced by new objects holding the parsed values and rehydrated.
   * When `nodes` or `links` is missing, the replacement has already happened when
   * `rehydrateGraph` throws, so the old graph is not restored.
   */
  method ImportGraph(g: Graph, parsed: Option<ImportPayload>) returns (outcome: ImportOutcome)
    modifies g
    ensures parsed.None? ==> outcome == InvalidJson && unchanged(g)
    ensures parsed.Some? ==>
      && g.Valid()
      && (forall n :: n in g.nodes ==> fresh(n))
      && (forall l :: l in g.links ==> fresh(l))
    ensures parsed.Some? ==>
      var p := parsed.value;
      var nodes := if p.nodes.Some? then p.nodes.value else [];
      var links := if p.links.Some? then p.links.value else [];
      && |g.nodes| == |nodes| && |g.links| == |links|
      && (forall i :: 0 <= i < |nodes| ==> g.nodes[i].Value() == nodes[i])
      && (forall i :: 0 <= i < |links| ==>
            && g.links[i].column == links[i].column
            && g.links[i].manual == links[i].manual
            && g.links[i].ambiguousData == links[i].ambiguousData)
    ensures parsed.Some? && parsed.value.nodes.Some? && parsed.value.links.Some? ==>
      && outcome == Imported
      && forall i :: 0 <= i < |g.links| ==>
           && g.links[i].source == State.Resolve(g.nodes, Plain(parsed.value.links.value[i].source))
           && g.links[i].target == State.Resolve(g.nodes, Plain(parsed.value.links.value[i].target))
    ensures parsed.Some? && (parsed.value.nodes.None? || parsed.value.links.None?) ==>
      && outcome == RehydrateFailed
      && forall i :: 0 <= i < |g.links| ==>
           && g.links[i].source == Plain(parsed.value.links.value[i].source)
           && g.links[i].target == Plain(parsed.value.links.value[i].target)
  {
    if parsed.None? {
      return InvalidJson;
    }
    var p := parsed.value;
    var nodes := MaterializeNodes(if p.nodes.Some? then p.nodes.value else []);
    var links := MaterializeLinks(if p.links.Some? then p.links.value else []);
    g.nodes := nodes;
    g.links := links;
    if p.nodes.None? || p.links.None? {
      return RehydrateFailed;
    }
    State.RehydrateGraph(g);
    outcome := Imported;
  }
}
