/**
 * `static/js/graph.js`: removing a link (which turns the column it satisfied back into an
 * ambiguous one), the colour of a node, and the key that identifies a link on screen.
 */
module GraphView {
  import opened Wrappers
  import opened Seqs
  import opened GraphStore
  import Modals

  /**
   * `e.id` on an endpoint: a node or a parsed node copy gives its id; an id string has no
   * `id` property, so the result is `undefined`. (On `undefined` itself the read throws.)
   */
  function PropId(e: Endpoint): (r: Option<string>)
    requires e != Plain(Missing)
    ensures r.Some? <==> !e.Plain? || e.data.Obj?
  {
    match e
    case Ref(n) => Some(n.id)
    case Plain(Obj(id)) => Some(id)
    case Plain(Raw(_)) => None
  }

  /** `nodes.find(n => n.id === id)`: the position of the FIRST node with that id. */
  function FindNode(nodes: seq<Node>, id: Option<string>): (r: Option<nat>)
    ensures r.Some? ==> r.value < |nodes| && Some(nodes[r.value].id) == id
    ensures r.Some? ==> forall j :: 0 <= j < r.value ==> Some(nodes[j].id) != id
    ensures r.None? ==> forall j :: 0 <= j < |nodes| ==> Some(nodes[j].id) != id
    decreases |nodes|
  {
    if |nodes| == 0 then None
    else if Some(nodes[0].id) == id then Some(0)
    else match FindNode(nodes[1..], id)
      case None => None
      case Some(k) => Some(k + 1)
  }

  /**
   * The column a removed link gives back to its target: the tuple a manual link remembers,
   * otherwise the link's column with the hint "unknown".
   */
  function RestoredColumn(manual: bool, ambiguousData: Option<Column>, column: string): Column
  {
    if manual && ambiguousData.Some? then ambiguousData.value else Column(column, "unknown")
  }

  /**
   * Mark a column ambiguous again, unless an entry with its name is already listed. Every
   * entry already listed stays in place and in order, nothing is added exactly when the name
   * is already listed, at most one entry is added otherwise, and
   * afterwards the name is listed: by the column itself unless its name already was. A list
   * without repeated names keeps that property.
   */
  function MarkAmbiguous(cols: seq<Column>, c: Column): (r: seq<Column>)
    ensures cols <= r && |r| <= |cols| + 1
    ensures r == cols <==> HasName(cols, c.name)
    ensures HasName(r, c.name)
    ensures HasName(cols, c.name) || c in r
    ensures NoDupNames(cols) ==> NoDupNames(r)
  {
    if HasName(cols, c.name) then cols
    else
      assert (cols + [c])[|cols|] == c;
      cols + [c]
  }

  /** Marking is idempotent: once the name is listed, marking it again changes nothing. */
  lemma MarkAmbiguousIdempotent(cols: seq<Column>, c: Column)
    ensures MarkAmbiguous(MarkAmbiguous(cols, c), c) == MarkAmbiguous(cols, c)
  {
  }

  /** The colours of a node's circle. */
  datatype Fill = Green | Yellow | Blue

  /**
   * The fill rule. `cols` is `None` when the node has no `ambiguousCols` at all. Yellow:
   * unresolved columns remain. Green: every column that was ever reverted is resolved.
   * Blue: the node never had an issue.
   */
  function FillOf(wasAmbiguous: bool, cols: Option<seq<Column>>): (f: Fill)
    ensures f == Yellow <==> cols.Some? && |cols.value| > 0
    ensures f == Green <==> wasAmbiguous && (cols.None? || |cols.value| == 0)
    ensures f == Blue <==> !wasAmbiguous && (cols.None? || |cols.value| == 0)
  {
    if wasAmbiguous && (cols.None? || |cols.value| == 0) then Green
    else if cols.Some? && |cols.value| > 0 then Yellow
    else Blue
  }

  /**
   * The fill of a live node. A `Node` here always carries its list; a node the source
   * imports without `ambiguousCols` is not represented (see the README's "Left out").
   */
  function NodeFill(n: Node): Fill
    reads n
  {
    FillOf(n.wasAmbiguous, Some(n.ambiguousCols))
  }

  /** After a column is marked ambiguous again, the node is drawn yellow. */
  lemma MarkedNodeIsYellow(wasAmbiguous: bool, cols: seq<Column>, c: Column)
    ensures FillOf(wasAmbiguous, Some(MarkAmbiguous(cols, c))) == Yellow
  {
    if HasName(cols, c.name) {
      assert |cols| > 0;
    }
  }

  /**
   * What a removal does to the link's target node: it is marked as having been ambiguous and
   * as ambiguous, and the column is listed again unless its name already is (`MarkAmbiguous`).
   * Its info and pin stay.
   */
  method MarkTarget(targetNode: Node, ambiguousData: Column)
    modifies targetNode
    ensures targetNode.wasAmbiguous && targetNode.ambiguous
    ensures targetNode.ambiguousCols == MarkAmbiguous(old(targetNode.ambiguousCols), ambiguousData)
    ensures targetNode.info == old(targetNode.info) && targetNode.pin == old(targetNode.pin)
  {
    targetNode.wasAmbiguous := true;
    var listed := HasName(targetNode.ambiguousCols, ambiguousData.name);
    if !listed {
      targetNode.ambiguousCols := targetNode.ambiguousCols + [ambiguousData];
    }
    targetNode.ambiguous := true;
  }

  /** `links.filter(l => l !== d)`: keep every link object other than `d`. */
  function IsNot(d: Link): Link -> bool
  {
    (l: Link) => l != d
  }

  /**
   * Without a confirmation nothing changes. With one, the links become the old ones minus
   * every occurrence of the object `d`, order kept. If a node has the id `d.target` names
   * (the first such node), it is marked as having been ambiguous and as ambiguous, and the
   * column the link satisfied is listed again (`RestoredColumn`, unless its name is already
   * listed); no other node changes. The link is dropped even when no such node exists. The
   * refresh callback is an outside notification.
   */
  method RemoveLink(confirmed: bool, d: Link, g: Graph)
    requires d.source != Plain(Missing) && d.target != Plain(Missing)
    modifies g, g.nodes
    ensures !confirmed ==> unchanged(g) && forall n :: n in g.nodes ==> unchanged(n)
    ensures confirmed ==> g.nodes == old(g.nodes) && g.links == Filter(old(g.links), IsNot(d))
    ensures confirmed ==>
      match FindNode(g.nodes, PropId(d.target))
      case None => forall n :: n in g.nodes ==> unchanged(n)
      case Some(k) =>
        && g.nodes[k].wasAmbiguous
        && g.nodes[k].ambiguous
        && g.nodes[k].ambiguousCols
           == MarkAmbiguous(old(g.nodes[k].ambiguousCols), RestoredColumn(d.manual, d.ambiguousData, d.column))
        && g.nodes[k].info == old(g.nodes[k].info) && g.nodes[k].pin == old(g.nodes[k].pin)
        && forall n :: n in g.nodes && n != g.nodes[k] ==> unchanged(n)
    ensures old(g.Valid()) ==> g.Valid()
    ensures unchanged(d)
  {
    if confirmed {
      var found := FindNode(g.nodes, PropId(d.target));
      if found.Some? {
        var ambiguousData := RestoredColumn(d.manual, d.ambiguousData, d.column);
        MarkTarget(g.nodes[found.value], ambiguousData);
      }
      if old(g.Valid()) {
        FilterDistinct(g.links, IsNot(d));
      }
      g.links := Filter(g.links, IsNot(d));
    }
  }

  /**
   * A confirmed removal leaves the target consistent (when it was), drawn yellow, and with the
   * removed column listed exactly once.
   */
  lemma RevertedTargetIsYellow(cols: seq<Column>, manual: bool, ambiguousData: Option<Column>, column: string)
    requires NoDupNames(cols)
    ensures var after := MarkAmbiguous(cols, RestoredColumn(manual, ambiguousData, column));
      && |after| > 0
      && NoDupNames(after)
      && FillOf(true, Some(after)) == Yellow
  {
    var c := RestoredColumn(manual, ambiguousData, column);
    MarkedNodeIsYellow(true, cols, c);
  }

  /**
   * The resolve/revert round trip: fix column `col` of a node whose list has unique names,
   * then remove the manual link that created: the list holds `col` again, verbatim (hint
   * included), and every other entry as before; only the position of `col` may change, to
   * the end.
   */
  lemma ResolveThenRevert(cols: seq<Column>, col: Column)
    requires NoDupNames(cols) && col in cols
    ensures var after := MarkAmbiguous(Modals.RemoveFirstNamed(cols, col.name), RestoredColumn(true, Some(col), col.name));
      && after == Filter(cols, Modals.NameIsNot(col.name)) + [col]
      && NoDupNames(after)
  {
    Modals.RemoveFirstNamedKeepsOthers(cols, col.name);
    Modals.RemoveFirstNamedDropsName(cols, col.name);

  }

  /** A node whose only unresolved column is `col` gets back exactly `[col]`. */
  lemma ResolveThenRevertSingle(col: Column)
    ensures MarkAmbiguous(Modals.RemoveFirstNamed([col], col.name), RestoredColumn(true, Some(col), col.name)) == [col]
  {
    ResolveThenRevert([col], col);
    assert Filter([col], Modals.NameIsNot(col.name)) == [];
  }

  /**
   * The part of the on-screen key an endpoint contributes, `e.id` as a string: an id string
   * has no `id`, which string concatenation writes as "undefined".
   */
  function KeyPart(e: Endpoint): string
    requires e != Plain(Missing)
  {
    match PropId(e)
    case Some(id) => id
    case None => "undefined"
  }

  /** The key of a link in the on-screen data join: `source.id + "-" + target.id + "-" + column`. */
  function LinkKey(source: Endpoint, target: Endpoint, column: string): string
    requires source != Plain(Missing) && target != Plain(Missing)
  {
    KeyPart(source) + "-" + KeyPart(target) + "-" + column
  }

  /**
   * The key depends only on the endpoints' ids and the column: two rehydrated links with
   * the same (source id, target id, column) triple share one key.
   */
  lemma SameTripleSameKey(s1: Node, t1: Node, s2: Node, t2: Node, column: string)
    requires s1.id == s2.id && t1.id == t2.id
    ensures LinkKey(Ref(s1), Ref(t1), column) == LinkKey(Ref(s2), Ref(t2), column)
  {
  }

  /** The first "-" of `part + "-" + rest` is the one after `part`, when `part` has none. */
  lemma FirstDash(a: string, b: string)
    requires '-' !in a
    ensures (a + "-" + b)[|a|] == '-'
    ensures forall i :: 0 <= i < |a| ==> (a + "-" + b)[i] != '-'
  {
    assert forall i :: 0 <= i < |a| ==> (a + "-" + b)[i] == a[i];
  }

  /** A part without "-" is read back from the front of `part + "-" + rest`. */
  lemma SplitAtDash(a: string, b: string, a': string, b': string)
    requires '-' !in a && '-' !in a'
    requires a + "-" + b == a' + "-" + b'
    ensures a == a' && b == b'
  {
    var k, k' := a + "-" + b, a' + "-" + b';
    FirstDash(a, b);
    FirstDash(a', b');
    assert |a| == |a'|;
    assert a == k[..|a|] == k'[..|a|] == a';
    assert b == k[|a| + 1..] == k'[|a| + 1..] == b';
  }

  /**
   * While no endpoint's key part contains "-", the key identifies the link: two links share
   * a key exactly when their source ids, their target ids and their columns agree.
   */
  lemma {:induction false} KeyIdentifiesLink(s1: Endpoint, t1: Endpoint, c1: string, s2: Endpoint, t2: Endpoint, c2: string)
    requires s1 != Plain(Missing) && t1 != Plain(Missing) && s2 != Plain(Missing) && t2 != Plain(Missing)
    requires '-' !in KeyPart(s1) && '-' !in KeyPart(t1) && '-' !in KeyPart(s2) && '-' !in KeyPart(t2)
    ensures LinkKey(s1, t1, c1) == LinkKey(s2, t2, c2)
      <==> KeyPart(s1) == KeyPart(s2) && KeyPart(t1) == KeyPart(t2) && c1 == c2
  {
    var p1, q1, p2, q2 := KeyPart(s1), KeyPart(t1), KeyPart(s2), KeyPart(t2);
    assert LinkKey(s1, t1, c1) == p1 + "-" + (q1 + "-" + c1);
    assert LinkKey(s2, t2, c2) == p2 + "-" + (q2 + "-" + c2);
    if LinkKey(s1, t1, c1) == LinkKey(s2, t2, c2) {
      SplitAtDash(p1, q1 + "-" + c1, p2, q2 + "-" + c2);
      SplitAtDash(q1, c1, q2, c2);
    }
  }

  /**
   * For rehydrated links, whose endpoints are node objects, the key identifies the link by
   * its (source id, target id, column) triple while no id contains "-".
   */
  lemma RehydratedKeyIdentifiesLink(s1: Node, t1: Node, c1: string, s2: Node, t2: Node, c2: string)
    requires '-' !in s1.id && '-' !in t1.id && '-' !in s2.id && '-' !in t2.id
    ensures LinkKey(Ref(s1), Ref(t1), c1) == LinkKey(Ref(s2), Ref(t2), c2)
      <==> s1.id == s2.id && t1.id == t2.id && c1 == c2
  {
    KeyIdentifiesLink(Ref(s1), Ref(t1), c1, Ref(s2), Ref(t2), c2);
  }

  /**
   * The key is not the triple: ids containing "-" can give two different triples one key,
   * for instance ("a-b", "c", "x") and ("a", "b-c", "x").
   */
  lemma KeyIsNotInjective()
    ensures LinkKey(Plain(Obj("a-b")), Plain(Obj("c")), "x") == LinkKey(Plain(Obj("a")), Plain(Obj("b-c")), "x")
  {
  }
}
