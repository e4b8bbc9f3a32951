/**
 * `graph/builder.py`: the schema classifier that decides, column by column, which columns
 * are foreign keys to another table and which are ambiguous; the networkx graph built from
 * its result; and the JSON records the front end is given.
 */
module Builder {
  import opened Wrappers
  import opened Seqs
  import opened Text
  import opened GraphStore
  import opened DiGraphs
  import State

  /** The fields of one `DESCRIBE` row the classifier reads: `Field`, `Type` and `Key`. */
  datatype ColumnRow = ColumnRow(field: string, colType: string, key: string)

  /** One entry of the `tables` dictionary: a table name and its rows in `DESCRIBE` order. */
  datatype Table = Table(name: string, columns: seq<ColumnRow>)

  /** `(table, ref, col_name)`: column `column` of table `child` refers to table `parent`. */
  datatype Relationship = Relationship(child: string, parent: string, column: string)

  /** One entry of `table_info`, with its key `name`. */
  datatype TableInfo = TableInfo(name: string, columnsHtml: string, ambiguousCols: seq<Column>, isAmbiguous: bool)

  /** The keys of a dictionary are distinct. */
  ghost predicate DistinctNames(tables: seq<Table>)
  {
    forall i, j :: 0 <= i < j < |tables| ==> tables[i].name != tables[j].name
  }

  /** MySQL never lists two columns of one table under the same name. */
  ghost predicate DistinctFields(cols: seq<ColumnRow>)
  {
    forall i, j :: 0 <= i < j < |cols| ==> cols[i].field != cols[j].field
  }

  /**
   * Group 1 of `re.compile(r"(.+)_id$", re.IGNORECASE).match(name)`: the name is at least
   * one character other than a line break followed by `_id` in any case at the very end;
   * the group is everything before that suffix.
   */
  function IdPrefix(name: string): (r: Option<string>)
    ensures r.Some? <==> |name| >= 4 && Lower(name[|name| - 3..]) == "_id" && '\n' !in name[..|name| - 3]
    ensures r.Some? ==> |r.value| >= 1 && name == r.value + name[|name| - 3..]
  {
    if |name| >= 4 && Lower(name[|name| - 3..]) == "_id" && '\n' !in name[..|name| - 3]
    then Some(name[..|name| - 3])
    else None
  }

  /**
   * How the pattern splits some names: greedy up to the last `_id`, any case, and a bare
   * `_id` or a name that merely contains `_id` does not match.
   */
  lemma IdPrefixExamples()
    ensures IdPrefix("user_id") == Some("user")
    ensures IdPrefix("Owner_ID") == Some("Owner")
    ensures IdPrefix("user_id_id") == Some("user_id")
    ensures IdPrefix("_id") == None
    ensures IdPrefix("user_idx") == None
  {
    assert "user_id"[4..] == "_id" && "user_id"[..4] == "user";
    UpperIdExample();
    assert "user_id_id"[7..] == "_id" && "user_id_id"[..7] == "user_id";
    assert "user_idx"[5..] == "idx";
    assert Lower("idx")[2] == 'x';
  }

  /** The suffix matches in any case: `Owner_ID` gives `Owner`. */
  lemma UpperIdExample()
    ensures IdPrefix("Owner_ID") == Some("Owner")
  {
    assert "Owner_ID"[5..] == "_ID" && "Owner_ID"[..5] == "Owner";
    var low := Lower("_ID");
    assert low[0] == '_' && low[1] == 'i' && low[2] == 'd';
    assert low == "_id";
  }


  /** `{t.lower() for t in tables.keys()}`. */
  function Known(tables: seq<Table>): set<string>
  {
    set i | 0 <= i < |tables| :: Lower(tables[i].name)
  }

  /** `{c[0] for c in cols if c[3] == "PRI"}`. */
  function PrimaryKeys(cols: seq<ColumnRow>): set<string>
  {
    set i | 0 <= i < |cols| && cols[i].key == "PRI" :: cols[i].field
  }

  /** The outcome for one column. */
  datatype Kind = PrimaryKey | Reference(parent: string) | Ambiguous | Other

  /**
   * A primary-key column is left alone. Otherwise a column named `<prefix>_id` refers to the
   * table whose lower-cased name is the lower-cased prefix, when that is a known table other
   * than this one; with an unknown prefix, or its own table's, it is ambiguous. Every other
   * column is left alone.
   */
  function Classify(table: string, known: set<string>, pks: set<string>, c: ColumnRow): Kind
  {
    if c.field in pks then PrimaryKey
    else match IdPrefix(c.field)
      case None => Other
      case Some(p) => if Lower(p) in known && Lower(p) != Lower(table) then Reference(Lower(p)) else Ambiguous
  }

  /** `f"{col_name} ({col_type})"`. */
  function Snippet(c: ColumnRow): string
  {
    c.field + " (" + c.colType + ")"
  }

  /** The yellow highlight of an ambiguous column's snippet. */
  function Highlight(s: string): string
  {
    "<span style='background-color:yellow'>" + s + "</span>"
  }

  /**
   * The relationships the columns of `table` yield, in column order: each names `table` as
   * the child and a known table other than `table` (lower-cased) as the parent, and no
   * primary-key column yields one.
   */
  function RelationshipsOf(table: string, known: set<string>, pks: set<string>, cols: seq<ColumnRow>): (r: seq<Relationship>)
    ensures forall k :: 0 <= k < |r| ==>
      && r[k].child == table && r[k].parent in known && r[k].parent != Lower(table) && r[k].column !in pks
    decreases |cols|
  {
    if |cols| == 0 then []
    else
      var c := cols[|cols| - 1];
      RelationshipsOf(table, known, pks, cols[..|cols| - 1])
      + match Classify(table, known, pks, c)
        case Reference(p) => [Relationship(table, p, c.field)]
        case _ => []
  }

  /**
   * The `(name, type)` pairs of the ambiguous columns of `table`, in column order: each is
   * named `<prefix>_id`, and no primary-key column is among them.
   */
  function AmbiguousOf(table: string, known: set<string>, pks: set<string>, cols: seq<ColumnRow>): (r: seq<Column>)
    ensures forall k :: 0 <= k < |r| ==> r[k].name !in pks && IdPrefix(r[k].name).Some?
    decreases |cols|
  {
    if |cols| == 0 then []
    else
      var c := cols[|cols| - 1];
      AmbiguousOf(table, known, pks, cols[..|cols| - 1])
      + if Classify(table, known, pks, c) == Ambiguous then [Column(c.field, c.colType)] else []
  }

  /** The snippet of one column: highlighted exactly when the column is ambiguous. */
  function ColumnSnippet(table: string, known: set<string>, pks: set<string>, c: ColumnRow): string
  {
    if Classify(table, known, pks, c) == Ambiguous then Highlight(Snippet(c)) else Snippet(c)
  }

  /** `col_htmls`: exactly one snippet per column, in column order. */
  function Snippets(table: string, known: set<string>, pks: set<string>, cols: seq<ColumnRow>): (r: seq<string>)
    ensures |r| == |cols|
    ensures forall i :: 0 <= i < |cols| ==> r[i] == ColumnSnippet(table, known, pks, cols[i])
    decreases |cols|
  {
    if |cols| == 0 then []
    else
      var front := cols[..|cols| - 1];
      var init := Snippets(table, known, pks, front);
      var r := init + [ColumnSnippet(table, known, pks, cols[|cols| - 1])];
      assert forall i :: 0 <= i < |front| ==> front[i] == cols[i];
      assert forall i :: 0 <= i < |init| ==> r[i] == init[i];
      r
  }

  /** The `table_info` entry of one table. */
  function TableInfoOf(t: Table, known: set<string>): TableInfo
  {
    var pks := PrimaryKeys(t.columns);
    var ambiguous := AmbiguousOf(t.name, known, pks, t.columns);
    TableInfo(t.name, Join(Snippets(t.name, known, pks, t.columns), "<br>"), ambiguous, |ambiguous| > 0)
  }

  /** The relationships of all tables: table by table, each table's in column order. */
  function AllRelationships(tables: seq<Table>, known: set<string>): (r: seq<Relationship>)
    ensures forall k :: 0 <= k < |r| ==> r[k].parent in known && r[k].parent != Lower(r[k].child)
    decreases |tables|
  {
    if |tables| == 0 then []
    else
      var t := tables[|tables| - 1];
      var init := AllRelationships(tables[..|tables| - 1], known);
      var r := init + RelationshipsOf(t.name, known, PrimaryKeys(t.columns), t.columns);
      assert forall k :: 0 <= k < |init| ==> r[k] == init[k];
      r
  }

  /** The `table_info` entries of all tables, one per table, in order. */
  function TableInfos(tables: seq<Table>, known: set<string>): (r: seq<TableInfo>)
    ensures |r| == |tables| && forall i :: 0 <= i < |tables| ==> r[i] == TableInfoOf(tables[i], known)
    decreases |tables|
  {
    if |tables| == 0 then []
    else
      var front := tables[..|tables| - 1];
      var init := TableInfos(front, known);
      var r := init + [TableInfoOf(tables[|tables| - 1], known)];
      assert forall i :: 0 <= i < |front| ==> r[i] == init[i] && front[i] == tables[i];
      r
  }

  /**
   * A relationship is listed exactly when some column refers to its parent: it is then
   * (this table, the lower-cased prefix, the column's name).
   */
  lemma {:induction false} RelationshipIff(table: string, known: set<string>, pks: set<string>, cols: seq<ColumnRow>, rel: Relationship)
    ensures rel in RelationshipsOf(table, known, pks, cols) <==>
      exists i :: 0 <= i < |cols| && Classify(table, known, pks, cols[i]) == Reference(rel.parent)
        && rel == Relationship(table, rel.parent, cols[i].field)
    decreases |cols|
  {
    if |cols| > 0 {
      var init := cols[..|cols| - 1];
      RelationshipIff(table, known, pks, init, rel);
      assert forall i :: 0 <= i < |init| ==> init[i] == cols[i];
    }
  }

  /**
   * An entry `(name, type)` is listed as ambiguous exactly when some column with that name
   * and type is classified ambiguous.
   */
  lemma {:induction false} AmbiguousIff(table: string, known: set<string>, pks: set<string>, cols: seq<ColumnRow>, a: Column)
    ensures a in AmbiguousOf(table, known, pks, cols) <==>
      exists i :: 0 <= i < |cols| && Classify(table, known, pks, cols[i]) == Ambiguous
        && a == Column(cols[i].field, cols[i].colType)
    decreases |cols|
  {
    if |cols| > 0 {
      var init := cols[..|cols| - 1];
      AmbiguousIff(table, known, pks, init, a);
      assert forall i :: 0 <= i < |init| ==> init[i] == cols[i];
    }
  }

  /**
   * Both lists follow column order: what the first `k` columns yield is a prefix of what all
   * columns yield.
   */
  lemma {:induction false} InColumnOrder(table: string, known: set<string>, pks: set<string>, cols: seq<ColumnRow>, k: nat)
    requires k <= |cols|
    ensures RelationshipsOf(table, known, pks, cols[..k]) <= RelationshipsOf(table, known, pks, cols)
    ensures AmbiguousOf(table, known, pks, cols[..k]) <= AmbiguousOf(table, known, pks, cols)
    decreases |cols|
  {
    if k == |cols| {
      assert cols[..k] == cols;
    } else {
      var init := cols[..|cols| - 1];
      assert cols[..k] == init[..k];
      InColumnOrder(table, known, pks, init, k);
    }
  }

  /** With distinct column names no relationship is listed twice. */
  lemma {:induction false} RelationshipsDistinct(table: string, known: set<string>, pks: set<string>, cols: seq<ColumnRow>)
    requires DistinctFields(cols)
    ensures Distinct(RelationshipsOf(table, known, pks, cols))
    decreases |cols|
  {
    if |cols| > 0 {
      var init := cols[..|cols| - 1];
      var c := cols[|cols| - 1];
      RelationshipsDistinct(table, known, pks, init);
      var r := RelationshipsOf(table, known, pks, init);
      forall k | 0 <= k < |r|
        ensures r[k].column != c.field
      {
        RelationshipIff(table, known, pks, init, r[k]);
      }
    }
  }

  /**
   * A column that refers to a table yields exactly one relationship, `(table, parent, name)`,
   * and no ambiguous entry (column names being distinct).
   */
  lemma ReferenceYieldsOneRelationship(table: string, known: set<string>, pks: set<string>, cols: seq<ColumnRow>, i: nat, parent: string)
    requires DistinctFields(cols) && i < |cols|
    requires Classify(table, known, pks, cols[i]) == Reference(parent)
    ensures var rels := RelationshipsOf(table, known, pks, cols);
      && Relationship(table, parent, cols[i].field) in rels
      && multiset(rels)[Relationship(table, parent, cols[i].field)] == 1
    ensures forall a :: a in AmbiguousOf(table, known, pks, cols) ==> a.name != cols[i].field
  {
    var rel := Relationship(table, parent, cols[i].field);
    RelationshipIff(table, known, pks, cols, rel);
    RelationshipsDistinct(table, known, pks, cols);
    DistinctOccursOnce(RelationshipsOf(table, known, pks, cols), rel);
    forall a | a in AmbiguousOf(table, known, pks, cols)
      ensures a.name != cols[i].field
    {
      AmbiguousIff(table, known, pks, cols, a);
    }
  }

  /** An element of a sequence without repetitions occurs in it once. */
  lemma {:induction false} DistinctOccursOnce<T>(s: seq<T>, x: T)
    requires Distinct(s) && x in s
    ensures multiset(s)[x] == 1
    decreases |s|
  {
    var init := s[..|s| - 1];
    assert s == init + [s[|s| - 1]];
    if x == s[|s| - 1] {
      assert x !in init;
    } else {
      DistinctOccursOnce(init, x);
    }
  }

  /** `is_ambiguous` holds exactly when some column of the table is ambiguous. */
  lemma IsAmbiguousIff(t: Table, known: set<string>)
    ensures TableInfoOf(t, known).isAmbiguous <==>
      exists i :: 0 <= i < |t.columns| && Classify(t.name, known, PrimaryKeys(t.columns), t.columns[i]) == Ambiguous
  {
    var pks := PrimaryKeys(t.columns);
    var amb := AmbiguousOf(t.name, known, pks, t.columns);
    if |amb| > 0 {
      AmbiguousIff(t.name, known, pks, t.columns, amb[0]);
    }
    forall i | 0 <= i < |t.columns| && Classify(t.name, known, pks, t.columns[i]) == Ambiguous
      ensures |amb| > 0
    {
      AmbiguousIff(t.name, known, pks, t.columns, Column(t.columns[i].field, t.columns[i].colType));
    }
  }

  /** A bare `_id` column is neither a reference nor ambiguous. */
  lemma BareIdIsNeither(table: string, known: set<string>, pks: set<string>, colType: string, key: string)
    ensures Classify(table, known, pks, ColumnRow("_id", colType, key)) in {PrimaryKey, Other}
  {
  }

  /** Exactly the snippets of ambiguous columns are highlighted; every other one is plain. */
  lemma HighlightedIffAmbiguous(table: string, known: set<string>, pks: set<string>, c: ColumnRow)
    ensures ColumnSnippet(table, known, pks, c) == Highlight(Snippet(c)) <==> Classify(table, known, pks, c) == Ambiguous
    ensures ColumnSnippet(table, known, pks, c) == Snippet(c) <==> Classify(table, known, pks, c) != Ambiguous
  {
    assert |Highlight(Snippet(c))| > |Snippet(c)|;
  }

  /** With distinct column names no name is listed twice among the ambiguous columns. */
  lemma {:induction false} AmbiguousNoDupNames(table: string, known: set<string>, pks: set<string>, cols: seq<ColumnRow>)
    requires DistinctFields(cols)
    ensures NoDupNames(AmbiguousOf(table, known, pks, cols))
    decreases |cols|
  {
    if |cols| > 0 {
      var init := cols[..|cols| - 1];
      var c := cols[|cols| - 1];
      AmbiguousNoDupNames(table, known, pks, init);
      var a := AmbiguousOf(table, known, pks, init);
      forall k | 0 <= k < |a|
        ensures a[k].name != c.field
      {
        AmbiguousIff(table, known, pks, init, a[k]);
      }
    }
  }

  /**
   * The entry of a table with distinct column names meets the front end's bookkeeping rule:
   * ambiguous exactly when some column is unresolved, no column name listed twice.
   */
  lemma TableInfoConsistent(t: Table, known: set<string>)
    requires DistinctFields(t.columns)
    ensures var info := TableInfoOf(t, known);
      info.isAmbiguous == (|info.ambiguousCols| > 0) && NoDupNames(info.ambiguousCols)
  {
    AmbiguousNoDupNames(t.name, known, PrimaryKeys(t.columns), t.columns);
  }

  /**
   * Over all tables: a relationship is listed exactly when some column of some table refers
   * to its parent, and it is then (that table, the parent, the column's name).
   */
  lemma {:induction false} SchemaRelationshipIff(tables: seq<Table>, known: set<string>, rel: Relationship)
    ensures rel in AllRelationships(tables, known) <==>
      exists i, j :: 0 <= i < |tables| && 0 <= j < |tables[i].columns|
        && Classify(tables[i].name, known, PrimaryKeys(tables[i].columns), tables[i].columns[j]) == Reference(rel.parent)
        && rel == Relationship(tables[i].name, rel.parent, tables[i].columns[j].field)
    decreases |tables|
  {
    if |tables| > 0 {
      var init := tables[..|tables| - 1];
      var t := tables[|tables| - 1];
      SchemaRelationshipIff(init, known, rel);
      RelationshipIff(t.name, known, PrimaryKeys(t.columns), t.columns, rel);
      assert forall i :: 0 <= i < |init| ==> init[i] == tables[i];
    }
  }

  /** What one more column adds to the relationships, the ambiguous columns and the snippets. */
  lemma ColumnStep(table: string, known: set<string>, pks: set<string>, cols: seq<ColumnRow>, j: nat)
    requires j < |cols|
    ensures RelationshipsOf(table, known, pks, cols[..j + 1]) == RelationshipsOf(table, known, pks, cols[..j])
      + match Classify(table, known, pks, cols[j])
        case Reference(p) => [Relationship(table, p, cols[j].field)]
        case _ => []
    ensures AmbiguousOf(table, known, pks, cols[..j + 1]) == AmbiguousOf(table, known, pks, cols[..j])
      + if Classify(table, known, pks, cols[j]) == Ambiguous then [Column(cols[j].field, cols[j].colType)] else []
    ensures Snippets(table, known, pks, cols[..j + 1]) == Snippets(table, known, pks, cols[..j]) + [ColumnSnippet(table, known, pks, cols[j])]
  {
    assert cols[..j + 1][..j] == cols[..j];
  }

  /** The loop over the columns of one table. */
  method AnalyzeTable(t: Table, known: set<string>) returns (rels: seq<Relationship>, info: TableInfo)
    ensures rels == RelationshipsOf(t.name, known, PrimaryKeys(t.columns), t.columns)
    ensures info == TableInfoOf(t, known)
  {
    var pks := PrimaryKeys(t.columns);
    var colHtmls: seq<string> := [];
    var ambiguousCols: seq<Column> := [];
    rels := [];
    for j := 0 to |t.columns|
      invariant rels == RelationshipsOf(t.name, known, pks, t.columns[..j])
      invariant ambiguousCols == AmbiguousOf(t.name, known, pks, t.columns[..j])
      invariant colHtmls == Snippets(t.name, known, pks, t.columns[..j])
    {
      var c := t.columns[j];
      ColumnStep(t.name, known, pks, t.columns, j);
      var snippet := Snippet(c);
      if c.field in pks {
        colHtmls := colHtmls + [snippet];
        continue;
      }
      var m := IdPrefix(c.field);
      if m.Some? {
        var ref := Lower(m.value);
        if ref in known && ref != Lower(t.name) {
          rels := rels + [Relationship(t.name, ref, c.field)];
          colHtmls := colHtmls + [snippet];
        } else {
          ambiguousCols := ambiguousCols + [Column(c.field, c.colType)];
          snippet := Highlight(snippet);
          colHtmls := colHtmls + [snippet];
        }
      } else {
        colHtmls := colHtmls + [snippet];
      }
    }
    assert t.columns[..|t.columns|] == t.columns;
    info := TableInfo(t.name, Join(colHtmls, "<br>"), ambiguousCols, |ambiguousCols| > 0);
  }

  /**
   * `analyze_schema(tables)`: the relationships of all tables, and one `table_info` entry per
   * table, in dictionary order.
   */
  method AnalyzeSchema(tables: seq<Table>) returns (relationships: seq<Relationship>, tableInfo: seq<TableInfo>)
    ensures relationships == AllRelationships(tables, Known(tables))
    ensures tableInfo == TableInfos(tables, Known(tables))
  {
    var known := Known(tables);
    relationships := [];
    tableInfo := [];
    for i := 0 to |tables|
      invariant relationships == AllRelationships(tables[..i], known)
      invariant tableInfo == TableInfos(tables[..i], known)
    {
      var rels, info := AnalyzeTable(tables[i], known);
      assert tables[..i + 1][..i] == tables[..i];
      relationships := relationships + rels;
      tableInfo := tableInfo + [info];
    }
    assert tables[..|tables|] == tables;
  }

  /** The attributes `build_graph` gives the node of a table: `ambiguous` and `wasAmbiguous` alike. */
  function TableAttrs(info: TableInfo): NodeAttrs
  {
    NodeAttrs(Some(info.columnsHtml), Some(info.isAmbiguous), Some(info.ambiguousCols), Some(info.isAmbiguous))
  }

  /** The attributes of the edge for a relationship: its column, and not manual. */
  function ForeignKey(column: string): EdgeAttrs
  {
    EdgeAttrs(Some(column), Some(false))
  }

  /** The keys of `table_info`, in order. */
  function Names(infos: seq<TableInfo>): (r: seq<string>)
    ensures |r| == |infos| && forall i :: 0 <= i < |infos| ==> r[i] == infos[i].name
    decreases |infos|
  {
    if |infos| == 0 then []
    else
      var init := Names(infos[..|infos| - 1]);
      var r := init + [infos[|infos| - 1].name];
      assert forall i :: 0 <= i < |init| ==> r[i] == init[i];
      r
  }

  /** The first loop of `build_graph`: one `add_node` per `table_info` entry, in order. */
  function AddTables(d: GraphState, infos: seq<TableInfo>): (r: GraphState)
    requires WellFormed(d)
    ensures WellFormed(r) && r.edges == d.edges
    ensures (forall u :: u in d.succ ==> d.succ[u] == []) ==> forall u :: u in r.succ ==> r.succ[u] == []
    decreases |infos|
  {
    if |infos| == 0 then d
    else
      var last := infos[|infos| - 1];
      var prev := AddTables(d, infos[..|infos| - 1]);
      var r := WithNode(prev, last.name, TableAttrs(last));
      assert forall u :: u in r.succ ==> u in prev.succ || u == last.name;
      r
  }

  /** The tables the relationships name, as parent or as child. */
  function Endpoints(rels: seq<Relationship>): (r: set<string>)
    ensures forall k :: 0 <= k < |rels| ==> rels[k].parent in r && rels[k].child in r
    decreases |rels|
  {
    if |rels| == 0 then {}
    else
      var last := rels[|rels| - 1];
      var init := rels[..|rels| - 1];
      assert forall k :: 0 <= k < |init| ==> init[k] == rels[k];
      Endpoints(init) + {last.parent, last.child}
  }

  /**
   * The second loop of `build_graph`: one `add_edge(parent, child, column=..., manual=False)`
   * per relationship, in order. Nodes already present keep their place and attributes; a
   * node added here is an endpoint of some relationship and has no attributes.
   */
  function AddRelationships(d: GraphState, rels: seq<Relationship>): (r: GraphState)
    requires WellFormed(d)
    ensures WellFormed(r) && d.nodes <= r.nodes
    ensures forall m :: m in d.attrs ==> m in r.attrs && r.attrs[m] == d.attrs[m]
    ensures forall m :: m in r.attrs && m !in d.attrs ==> r.attrs[m] == NoNodeAttrs
    ensures forall m :: m in r.nodes ==> m in d.nodes || m in Endpoints(rels)
    decreases |rels|
  {
    if |rels| == 0 then d
    else
      var last := rels[|rels| - 1];
      var init := rels[..|rels| - 1];
      var prev := AddRelationships(d, init);
      WithEdge(prev, last.parent, last.child, ForeignKey(last.column))
  }

  /** The `k`-th relationship yields an edge from its parent to its child. */
  lemma {:induction false} RelationshipIsEdge(d: GraphState, rels: seq<Relationship>, k: nat)
    requires WellFormed(d) && k < |rels|
    ensures var r := AddRelationships(d, rels);
      rels[k].parent in r.succ && rels[k].child in r.succ[rels[k].parent]
    decreases |rels|
  {
    var init := rels[..|rels| - 1];
    var last := rels[|rels| - 1];
    var prev := AddRelationships(d, init);
    var r := WithEdge(prev, last.parent, last.child, ForeignKey(last.column));
    assert r == AddRelationships(d, rels);
    if k < |rels| - 1 {
      RelationshipIsEdge(d, init, k);
      assert init[k] == rels[k];
    }
  }

  /** The graph `build_graph` returns. */
  function BuiltGraph(rels: seq<Relationship>, infos: seq<TableInfo>): (r: GraphState)
    ensures WellFormed(r)
  {
    assert WellFormed(EmptyGraph);
    AddRelationships(AddTables(EmptyGraph, infos), rels)
  }

  /** With distinct table names the table nodes are the table names, in `table_info` order. */
  lemma {:induction false} TablesAreNodes(infos: seq<TableInfo>)
    requires Distinct(Names(infos))
    ensures AddTables(EmptyGraph, infos).nodes == Names(infos)
    decreases |infos|
  {
    assert WellFormed(EmptyGraph);
    if |infos| > 0 {
      var init := infos[..|infos| - 1];
      var last := infos[|infos| - 1];
      var names := Names(init);
      assert Names(infos) == names + [last.name];
      DistinctFront(names, last.name);
      TablesAreNodes(init);
    }
  }

  /** With distinct table names the node of the `i`-th table carries the attributes of its entry. */
  lemma {:induction false} TableHasItsAttributes(infos: seq<TableInfo>, i: nat)
    requires Distinct(Names(infos)) && i < |infos|
    ensures var r := AddTables(EmptyGraph, infos);
      infos[i].name in r.attrs && r.attrs[infos[i].name] == TableAttrs(infos[i])
    decreases |infos|
  {
    assert WellFormed(EmptyGraph);
    var init := infos[..|infos| - 1];
    var last := infos[|infos| - 1];
    var names := Names(init);
    assert Names(infos) == names + [last.name];
    DistinctFront(names, last.name);
    TablesAreNodes(init);
    var prev := AddTables(EmptyGraph, init);
    assert last.name !in prev.attrs;
    if i < |infos| - 1 {
      TableHasItsAttributes(init, i);
      assert init[i] == infos[i] && names[i] == infos[i].name;
    }
  }

  /** The relationship `rel` joins `child` to `parent`. */
  predicate Joins(rel: Relationship, parent: string, child: string)
  {
    rel.parent == parent && rel.child == child
  }

  /** The column of the last relationship from `child` to `parent`, if there is one at all. */
  function LastColumn(rels: seq<Relationship>, parent: string, child: string): (r: Option<string>)
    ensures r.Some? <==> exists k :: 0 <= k < |rels| && Joins(rels[k], parent, child)
    decreases |rels|
  {
    if |rels| == 0 then None
    else
      var last := rels[|rels| - 1];
      var init := rels[..|rels| - 1];
      assert forall k :: 0 <= k < |init| ==> init[k] == rels[k];
      if Joins(last, parent, child) then Some(last.column)
      else LastColumn(init, parent, child)
  }

  /**
   * The column found is that of a relationship joining the pair after which no other
   * relationship joins it: a later relationship overrides an earlier one.
   */
  lemma {:induction false} LastColumnIsLast(rels: seq<Relationship>, parent: string, child: string)
    requires LastColumn(rels, parent, child).Some?
    ensures exists k :: 0 <= k < |rels| && rels[k] == Relationship(child, parent, LastColumn(rels, parent, child).value)
                        && forall j :: k < j < |rels| ==> !Joins(rels[j], parent, child)
    decreases |rels|
  {
    var last := rels[|rels| - 1];
    var init := rels[..|rels| - 1];
    if Joins(last, parent, child) {
      assert rels[|rels| - 1] == Relationship(child, parent, LastColumn(rels, parent, child).value);
    } else {
      var column := LastColumn(rels, parent, child).value;
      assert LastColumn(init, parent, child) == Some(column);
      LastColumnIsLast(init, parent, child);
      var k :| 0 <= k < |init| && init[k] == Relationship(child, parent, column)
               && forall j :: k < j < |init| ==> !Joins(init[j], parent, child);
      assert rels[k] == init[k];
      forall j | k < j < |rels|
        ensures !Joins(rels[j], parent, child)
      {
        if j < |init| {
          assert rels[j] == init[j];
        }
      }
    }
  }

  /**
   * Starting from a graph without edges, every edge after adding the relationships joins
   * the parent and the child of some relationship, from parent to child, and holds the column
   * of the last relationship that joins that pair, with `manual` false.
   */
  lemma {:induction false} EdgesAreRelationships(d: GraphState, rels: seq<Relationship>)
    requires WellFormed(d) && forall u :: u in d.succ ==> d.succ[u] == []
    ensures var r := AddRelationships(d, rels);
      forall a, b :: a in r.succ && b in r.succ[a] ==>
        LastColumn(rels, a, b).Some? && r.edges[(a, b)] == ForeignKey(LastColumn(rels, a, b).value)
    decreases |rels|
  {
    if |rels| > 0 {
      var init := rels[..|rels| - 1];
      var last := rels[|rels| - 1];
      EdgesAreRelationships(d, init);
      var prev := AddRelationships(d, init);
      var r := WithEdge(prev, last.parent, last.child, ForeignKey(last.column));
      assert r == AddRelationships(d, rels);
      forall a, b | a in r.succ && b in r.succ[a]
        ensures LastColumn(rels, a, b).Some? && r.edges[(a, b)] == ForeignKey(LastColumn(rels, a, b).value)
      {
        if !Joins(last, a, b) {
          assert a in prev.succ && b in prev.succ[a];
          assert LastColumn(rels, a, b) == LastColumn(init, a, b);
        }
      }
    }
  }

  /** The first loop of `build_graph`, on the graph `g`. */
  method AddTableNodes(g: DiGraph, tableInfo: seq<TableInfo>)
    requires g.Valid()
    modifies g
    ensures g.Valid() && g.Value() == AddTables(old(g.Value()), tableInfo)
  {
    ghost var start := g.Value();
    for i := 0 to |tableInfo|
      invariant g.Valid() && g.Value() == AddTables(start, tableInfo[..i])
    {
      assert tableInfo[..i + 1][..i] == tableInfo[..i];
      var info := tableInfo[i];
      g.AddNode(info.name, TableAttrs(info));
    }
    assert tableInfo[..|tableInfo|] == tableInfo;
  }

  /** The second loop of `build_graph`, on the graph `g`. */
  method AddRelationshipEdges(g: DiGraph, relationships: seq<Relationship>)
    requires g.Valid()
    modifies g
    ensures g.Valid() && g.Value() == AddRelationships(old(g.Value()), relationships)
  {
    ghost var start := g.Value();
    for i := 0 to |relationships|
      invariant g.Valid() && g.Value() == AddRelationships(start, relationships[..i])
    {
      var rel := relationships[i];
      assert relationships[..i + 1][..i] == relationships[..i] && relationships[..i + 1][i] == rel;
      ghost var before := AddRelationships(start, relationships[..i]);
      assert AddRelationships(start, relationships[..i + 1]) == WithEdge(before, rel.parent, rel.child, ForeignKey(rel.column));
      g.AddEdge(rel.parent, rel.child, ForeignKey(rel.column));
    }
    assert relationships[..|relationships|] == relationships;
  }

  /** `build_graph(relationships, table_info)`. */
  method BuildGraph(relationships: seq<Relationship>, tableInfo: seq<TableInfo>) returns (g: DiGraph)
    ensures fresh(g) && g.Valid()
    ensures g.Value() == BuiltGraph(relationships, tableInfo)
  {
    g := new DiGraph();
    AddTableNodes(g, tableInfo);
    AddRelationshipEdges(g, relationships);
  }

  /** `data.get(key, fallback)`. */
  function GetOr<T>(v: Option<T>, fallback: T): T
  {
    if v.Some? then v.value else fallback
  }

  /** A node record of `graph_to_json`: each attribute, or its default when absent; no position. */
  function NodeRecord(id: string, a: NodeAttrs): NodeData
  {
    NodeData(id, GetOr(a.info, ""), GetOr(a.ambiguousCols, []), GetOr(a.ambiguous, false), GetOr(a.wasAmbiguous, false), None)
  }

  /** A link record of `graph_to_json`: plain ids as endpoints, no `ambiguousData`. */
  function LinkRecord(u: string, v: string, e: EdgeAttrs): LinkData
  {
    LinkData(Raw(u), Raw(v), GetOr(e.column, ""), GetOr(e.manual, false), None)
  }

  /** One record per node, in node order. */
  function NodeRecords(d: GraphState): seq<NodeData>
    requires WellFormed(d)
  {
    seq(|d.nodes|, i requires 0 <= i < |d.nodes| && WellFormed(d) => NodeRecord(d.nodes[i], d.attrs[d.nodes[i]]))
  }

  /** The records of the edges leaving `u`, in successor order. */
  function OutRecords(d: GraphState, u: string): (r: seq<LinkData>)
    requires WellFormed(d) && u in d.succ
    ensures |r| == |d.succ[u]|
    ensures forall j :: 0 <= j < |r| ==> r[j].source == Raw(u) && r[j].target == Raw(d.succ[u][j])
  {
    seq(|d.succ[u]|, j requires 0 <= j < |d.succ[u]| && WellFormed(d) && u in d.succ =>
      LinkRecord(u, d.succ[u][j], d.edges[(u, d.succ[u][j])]))
  }

  /**
   * The records of the edges leaving the nodes `us`, node by node: each is the record of an
   * edge from one of `us`, and every edge from one of `us` has its record.
   */
  function LinkRecords(d: GraphState, us: seq<string>): (r: seq<LinkData>)
    requires WellFormed(d) && forall u :: u in us ==> u in d.succ
    ensures forall i :: 0 <= i < |r| ==>
      && r[i].source.Raw? && r[i].target.Raw?
      && r[i].source.id in us && r[i].target.id in d.succ[r[i].source.id]
      && r[i] == LinkRecord(r[i].source.id, r[i].target.id, d.edges[(r[i].source.id, r[i].target.id)])
    ensures forall u, v :: u in us && v in d.succ[u] ==> LinkRecord(u, v, d.edges[(u, v)]) in r
    decreases |us|
  {
    if |us| == 0 then []
    else
      var init := LinkRecords(d, us[..|us| - 1]);
      var u := us[|us| - 1];
      var out := OutRecords(d, u);
      var r := init + out;
      assert forall i :: 0 <= i < |init| ==> r[i] == init[i];
      assert forall j :: 0 <= j < |out| ==> r[|init| + j] == out[j];
      assert forall w :: w in us ==> w in us[..|us| - 1] || w == u;
      forall v | v in d.succ[u]
        ensures LinkRecord(u, v, d.edges[(u, v)]) in r
      {
        var j :| 0 <= j < |d.succ[u]| && d.succ[u][j] == v;
        assert r[|init| + j] == out[j];
      }
      r
  }

  /** What `graph_to_json` returns for a graph. */
  function GraphJson(d: GraphState): GraphData
    requires WellFormed(d)
  {
    GraphData(NodeRecords(d), LinkRecords(d, d.nodes))
  }

  /** The first loop of `graph_to_json`: one record per node, in node order. */
  method NodeList(g: DiGraph) returns (nodes: seq<NodeData>)
    requires g.Valid()
    ensures nodes == NodeRecords(g.Value())
  {
    ghost var d := g.Value();
    nodes := [];
    for i := 0 to |g.nodes|
      invariant nodes == NodeRecords(d)[..i]
    {
      var n := g.nodes[i];
      nodes := nodes + [NodeRecord(n, g.attrs[n])];
    }
  }

  /** The inner loop of `graph_to_json`: the records of the edges leaving `u`, appended to `links`. */
  method AppendOutRecords(g: DiGraph, u: string, links: seq<LinkData>) returns (links': seq<LinkData>)
    requires g.Valid() && u in g.succ
    ensures links' == links + OutRecords(g.Value(), u)
  {
    ghost var d := g.Value();
    var out := g.succ[u];
    links' := links;
    for j := 0 to |out|
      invariant links' == links + OutRecords(d, u)[..j]
    {
      links' := links' + [LinkRecord(u, out[j], g.edges[(u, out[j])])];
    }
  }

  /** The records of one more node's edges follow those of the nodes before it. */
  lemma LinkRecordsStep(d: GraphState, us: seq<string>, i: nat)
    requires WellFormed(d) && i < |us| && forall u :: u in us ==> u in d.succ
    ensures LinkRecords(d, us[..i + 1]) == LinkRecords(d, us[..i]) + OutRecords(d, us[i])
  {
    assert us[..i + 1][..i] == us[..i];
  }

  /** The second loop of `graph_to_json`: the edge records, node by node. */
  method LinkList(g: DiGraph) returns (links: seq<LinkData>)
    requires g.Valid()
    ensures links == LinkRecords(g.Value(), g.nodes)
  {
    ghost var d := g.Value();
    links := [];
    for i := 0 to |g.nodes|
      invariant links == LinkRecords(d, g.nodes[..i])
    {
      LinkRecordsStep(d, g.nodes, i);
      links := AppendOutRecords(g, g.nodes[i], links);
    }
    assert g.nodes[..|g.nodes|] == g.nodes;
  }

  /** `graph_to_json(G)`: the node records, then the edge records node by node. */
  method GraphToJson(g: DiGraph) returns (data: GraphData)
    requires g.Valid()
    ensures data == GraphJson(g.Value())
  {
    var nodes := NodeList(g);
    var links := LinkList(g);
    data := GraphData(nodes, links);
  }

  /** Adding the tables never lists a node, or a successor of one node, twice. */
  lemma {:induction false} AddTablesNoRepeats(d: GraphState, infos: seq<TableInfo>)
    requires WellFormed(d) && NoRepeats(d)
    ensures NoRepeats(AddTables(d, infos))
    decreases |infos|
  {
    if |infos| > 0 {
      var init := infos[..|infos| - 1];
      var last := infos[|infos| - 1];
      AddTablesNoRepeats(d, init);
      WithNodeNoRepeats(AddTables(d, init), last.name, TableAttrs(last));
    }
  }

  /** Adding the relationships never lists a node, or a successor of one node, twice. */
  lemma {:induction false} AddRelationshipsNoRepeats(d: GraphState, rels: seq<Relationship>)
    requires WellFormed(d) && NoRepeats(d)
    ensures NoRepeats(AddRelationships(d, rels))
    decreases |rels|
  {
    if |rels| > 0 {
      var init := rels[..|rels| - 1];
      var last := rels[|rels| - 1];
      AddRelationshipsNoRepeats(d, init);
      WithEdgeNoRepeats(AddRelationships(d, init), last.parent, last.child, ForeignKey(last.column));
    }
  }

  /** The built graph lists no node twice and no edge twice. */
  lemma BuiltGraphNoRepeats(rels: seq<Relationship>, infos: seq<TableInfo>)
    ensures NoRepeats(BuiltGraph(rels, infos))
  {
    assert WellFormed(EmptyGraph) && NoRepeats(EmptyGraph);
    AddTablesNoRepeats(EmptyGraph, infos);
    AddRelationshipsNoRepeats(AddTables(EmptyGraph, infos), rels);
  }

  /** No two links join the same ordered pair of endpoints. */
  ghost predicate OnePerPair(links: seq<LinkData>)
  {
    forall i, j :: 0 <= i < j < |links| ==> links[i].source != links[j].source || links[i].target != links[j].target
  }

  /** Two link lists without repeated pairs, whose sources differ, have none together either. */
  lemma AppendOnePerPair(a: seq<LinkData>, b: seq<LinkData>)
    requires OnePerPair(a) && OnePerPair(b)
    requires forall i, j :: 0 <= i < |a| && 0 <= j < |b| ==> a[i].source != b[j].source
    ensures OnePerPair(a + b)
  {
    var r := a + b;
    forall i, j | 0 <= i < j < |r|
      ensures r[i].source != r[j].source || r[i].target != r[j].target
    {
      if j < |a| {
        assert r[i] == a[i] && r[j] == a[j];
      } else if i < |a| {
        assert r[i] == a[i] && r[j] == b[j - |a|];
      } else {
        assert r[i] == b[i - |a|] && r[j] == b[j - |a|];
      }
    }
  }

  /** The records of the edges leaving one node join distinct pairs when no successor repeats. */
  lemma OutRecordsOnePerPair(d: GraphState, u: string)
    requires WellFormed(d) && NoRepeats(d) && u in d.succ
    ensures OnePerPair(OutRecords(d, u))
  {
    var out := OutRecords(d, u);
    forall i, j | 0 <= i < j < |out|
      ensures out[i].target != out[j].target
    {
      assert d.succ[u][i] != d.succ[u][j];
    }
  }

  /**
   * With no node and no successor listed twice, no two link records of the nodes `us` join
   * the same ordered pair.
   */
  lemma {:induction false} LinkRecordsOnePerPair(d: GraphState, us: seq<string>)
    requires WellFormed(d) && NoRepeats(d) && Distinct(us) && forall u :: u in us ==> u in d.succ
    ensures OnePerPair(LinkRecords(d, us))
    decreases |us|
  {
    if |us| > 0 {
      var front := us[..|us| - 1];
      var u := us[|us| - 1];
      assert forall i :: 0 <= i < |front| ==> front[i] == us[i];
      LinkRecordsOnePerPair(d, front);
      OutRecordsOnePerPair(d, u);
      var init := LinkRecords(d, front);
      var out := OutRecords(d, u);
      assert u !in front;
      AppendOnePerPair(init, out);
    }
  }

  /** `graph_to_json` of the built graph never emits two links for the same ordered pair. */
  lemma OneLinkPerPair(rels: seq<Relationship>, infos: seq<TableInfo>)
    ensures OnePerPair(GraphJson(BuiltGraph(rels, infos)).links)
  {
    var d := BuiltGraph(rels, infos);
    BuiltGraphNoRepeats(rels, infos);
    LinkRecordsOnePerPair(d, d.nodes);
  }

  /** The relationship facts about a link record. */
  ghost predicate FromRelationship(rels: seq<Relationship>, link: LinkData)
  {
    && link.source.Raw? && link.target.Raw?
    && LastColumn(rels, link.source.id, link.target.id) == Some(link.column)
    && !link.manual && link.ambiguousData.None?
  }

  /**
   * Starting from a graph without edges, every link record after adding the relationships
   * holds the column of the last relationship for its pair.
   */
  lemma RecordsFromRelationships(d0: GraphState, rels: seq<Relationship>)
    requires WellFormed(d0) && forall u :: u in d0.succ ==> d0.succ[u] == []
    ensures var d := AddRelationships(d0, rels);
      forall link :: link in LinkRecords(d, d.nodes) ==> FromRelationship(rels, link)
  {
    EdgesAreRelationships(d0, rels);
    RecordsFromEdges(AddRelationships(d0, rels), rels);
  }

  /** When every edge holds the last column of a relationship, so does every link record. */
  lemma RecordsFromEdges(d: GraphState, rels: seq<Relationship>)
    requires WellFormed(d)
    requires forall a, b :: a in d.succ && b in d.succ[a] ==>
      LastColumn(rels, a, b).Some? && d.edges[(a, b)] == ForeignKey(LastColumn(rels, a, b).value)
    ensures forall link :: link in LinkRecords(d, d.nodes) ==> FromRelationship(rels, link)
  {
    forall link | link in LinkRecords(d, d.nodes)
      ensures FromRelationship(rels, link)
    {
      var u, v := link.source.id, link.target.id;
      assert link == LinkRecord(u, v, d.edges[(u, v)]);
    }
  }

  /**
   * Every link `graph_to_json` emits for the built graph joins plain ids, from the parent to
   * the child of some relationship, with the column of the last relationship that joins that
   * pair, not manual and without `ambiguousData`.
   */
  lemma JsonLinksAreRelationships(rels: seq<Relationship>, infos: seq<TableInfo>)
    ensures forall link :: link in GraphJson(BuiltGraph(rels, infos)).links ==> FromRelationship(rels, link)
  {
    assert WellFormed(EmptyGraph);
    RecordsFromRelationships(AddTables(EmptyGraph, infos), rels);
  }

  /**
   * Every relationship has its link in the JSON of the built graph: from its parent to its
   * child, with the column of the last relationship joining that pair.
   */
  lemma JsonLinkOfRelationship(rels: seq<Relationship>, infos: seq<TableInfo>, k: nat)
    requires k < |rels|
    ensures var rel := rels[k];
      && LastColumn(rels, rel.parent, rel.child).Some?
      && LinkData(Raw(rel.parent), Raw(rel.child), LastColumn(rels, rel.parent, rel.child).value, false, None)
         in GraphJson(BuiltGraph(rels, infos)).links
  {
    assert WellFormed(EmptyGraph);
    var d0 := AddTables(EmptyGraph, infos);
    var d := BuiltGraph(rels, infos);
    var rel := rels[k];
    RelationshipIsEdge(d0, rels, k);
    EdgesAreRelationships(d0, rels);
    assert rel.parent in d.nodes;
    assert LinkRecord(rel.parent, rel.child, d.edges[(rel.parent, rel.child)]) in LinkRecords(d, d.nodes);
  }

  /**
   * With distinct table names the JSON of the built graph starts with one record per table,
   * in `table_info` order: its name, its `columns_html`, its ambiguous columns, `ambiguous`
   * and `wasAmbiguous` both `is_ambiguous`, and no position.
   */
  lemma JsonTableNodes(rels: seq<Relationship>, infos: seq<TableInfo>)
    requires Distinct(Names(infos))
    ensures var nodes := GraphJson(BuiltGraph(rels, infos)).nodes;
      && |infos| <= |nodes|
      && forall i :: 0 <= i < |infos| ==>
           nodes[i] == NodeData(infos[i].name, infos[i].columnsHtml, infos[i].ambiguousCols, infos[i].isAmbiguous, infos[i].isAmbiguous, None)
  {
    assert WellFormed(EmptyGraph);
    var d0 := AddTables(EmptyGraph, infos);
    var d := AddRelationships(d0, rels);
    TablesAreNodes(infos);
    var nodes := GraphJson(d).nodes;
    forall i | 0 <= i < |infos|
      ensures nodes[i] == NodeData(infos[i].name, infos[i].columnsHtml, infos[i].ambiguousCols, infos[i].isAmbiguous, infos[i].isAmbiguous, None)
    {
      TableHasItsAttributes(infos, i);
      assert d.nodes[i] == d0.nodes[i] == infos[i].name;
    }
  }

  /** `Users` lower-cases to `users`. */
  lemma UsersLower()
    ensures Lower("Users") == "users"
  {
    var low := Lower("Users");
    assert low[0] == 'u' && low[1] == 's' && low[2] == 'e' && low[3] == 'r' && low[4] == 's';
  }

  /**
   * A relationship's parent is the lower-cased prefix, not the table's own spelling: with a
   * table `Users`, the column `users_id` of `orders` refers to `users`, which is no table
   * name, so `add_edge` creates a separate node `users` for it.
   */
  lemma LowerCasedParentExample()
    ensures Known([Table("Users", []), Table("orders", [])]) == {"users", "orders"}
    ensures Classify("orders", {"users", "orders"}, {"id"}, ColumnRow("users_id", "int", "MUL")) == Reference("users")
    ensures "users" !in Names([TableInfo("Users", "", [], false), TableInfo("orders", "", [], false)])
  {
    var tables := [Table("Users", []), Table("orders", [])];
    UsersLower();
    assert Lower("orders") == "orders";
    assert Lower(tables[0].name) in Known(tables) && Lower(tables[1].name) in Known(tables);
    forall x | x in Known(tables)
      ensures x == "users" || x == "orders"
    {
      var i :| 0 <= i < |tables| && x == Lower(tables[i].name);
      assert i == 0 || i == 1;
    }
    assert "users_id"[5..] == "_id" && "users_id"[..5] == "users";
    assert Lower("users") == "users";
    assert Names([TableInfo("Users", "", [], false), TableInfo("orders", "", [], false)]) == ["Users", "orders"];
    assert "users" != "Users";
  }

  /** Every node the tables add is named after one of them. */
  lemma {:induction false} TableNodesAreNames(infos: seq<TableInfo>)
    ensures forall m :: m in AddTables(EmptyGraph, infos).nodes ==> m in Names(infos)
    decreases |infos|
  {
    assert WellFormed(EmptyGraph);
    if |infos| > 0 {
      var init := infos[..|infos| - 1];
      var last := infos[|infos| - 1];
      TableNodesAreNames(init);
      assert Names(infos) == Names(init) + [last.name];
    }
  }

  /**
   * Every record of the JSON of the built graph whose id is no table name is that of a node
   * `add_edge` created for a relationship endpoint (a parent is the lower-cased prefix, which
   * need not be the table's own spelling): it has every default and no position.
   */
  lemma JsonEndpointNodes(rels: seq<Relationship>, infos: seq<TableInfo>)
    ensures forall n :: n in GraphJson(BuiltGraph(rels, infos)).nodes && n.id !in Names(infos) ==>
      n.id in Endpoints(rels) && n == NodeData(n.id, "", [], false, false, None)
  {
    assert WellFormed(EmptyGraph);
    TableNodesAreNames(infos);
    AddedRecords(AddTables(EmptyGraph, infos), rels);
  }

  /**
   * Every record of a node the relationships added to `d0` is of an endpoint of one of them,
   * with every default.
   */
  lemma AddedRecords(d0: GraphState, rels: seq<Relationship>)
    requires WellFormed(d0)
    ensures forall n :: n in NodeRecords(AddRelationships(d0, rels)) && n.id !in d0.nodes ==>
      n.id in Endpoints(rels) && n == NodeData(n.id, "", [], false, false, None)
  {
    var d := AddRelationships(d0, rels);
    var nodes := NodeRecords(d);
    forall n | n in nodes && n.id !in d0.nodes
      ensures n.id in Endpoints(rels) && n == NodeData(n.id, "", [], false, false, None)
    {
      var i :| 0 <= i < |nodes| && nodes[i] == n;
      assert n == NodeRecord(d.nodes[i], d.attrs[d.nodes[i]]);
    }
  }

  /** The ids of the node records are the nodes, so every node's id is among them. */
  lemma RecordIdsAreNodes(d: GraphState)
    requires WellFormed(d)
    ensures forall m :: m in d.nodes ==> m in State.RecordIds(NodeRecords(d))
  {
    var ids := State.RecordIds(NodeRecords(d));
    forall m | m in d.nodes
      ensures m in ids
    {
      var k :| 0 <= k < |d.nodes| && d.nodes[k] == m;
      assert ids[k] == m;
    }
  }

  /**
   * Rehydrating the JSON `graph_to_json` emits resolves every endpoint of every link to a
   * node: none is lost, as each names a node that has a record.
   */
  lemma JsonEndpointsResolve(d: GraphState)
    requires WellFormed(d)
    ensures var data := GraphJson(d);
      forall i :: 0 <= i < |data.links| ==>
        && State.RehydratedData(data).links[i].source == Obj(data.links[i].source.id)
        && State.RehydratedData(data).links[i].target == Obj(data.links[i].target.id)
  {
    var data := GraphJson(d);
    RecordIdsAreNodes(d);
    forall i | 0 <= i < |data.links|
      ensures data.links[i].source.Raw? && data.links[i].source.id in State.RecordIds(data.nodes)
      ensures data.links[i].target.Raw? && data.links[i].target.id in State.RecordIds(data.nodes)
    {
    }
  }

  /** The entries of tables with distinct names have distinct names. */
  lemma TableInfosNamesDistinct(tables: seq<Table>, known: set<string>)
    requires DistinctNames(tables)
    ensures Distinct(Names(TableInfos(tables, known)))
  {
    var names := Names(TableInfos(tables, known));
    forall i, j | 0 <= i < j < |names|
      ensures names[i] != names[j]
    {
      assert names[i] == tables[i].name && names[j] == tables[j].name;
    }
  }

  /**
   * The whole pipeline, `analyze_schema` then `build_graph` then `graph_to_json`, for tables
   * with distinct names and distinct column names: the first records are the tables', in
   * order, and each meets the front end's bookkeeping rule (ambiguous exactly when some
   * column is unresolved, no column listed twice), with `wasAmbiguous` equal to `ambiguous`
   * and no position.
   */
  lemma SchemaJsonTableNodes(tables: seq<Table>)
    requires DistinctNames(tables) && forall i :: 0 <= i < |tables| ==> DistinctFields(tables[i].columns)
    ensures var known := Known(tables);
      var nodes := GraphJson(BuiltGraph(AllRelationships(tables, known), TableInfos(tables, known))).nodes;
      && |tables| <= |nodes|
      && forall i :: 0 <= i < |tables| ==>
           && nodes[i].id == tables[i].name && nodes[i].pin.None?
           && nodes[i].ambiguous == (|nodes[i].ambiguousCols| > 0) && NoDupNames(nodes[i].ambiguousCols)
           && nodes[i].wasAmbiguous == nodes[i].ambiguous
  {
    var known := Known(tables);
    var infos := TableInfos(tables, known);
    var rels := AllRelationships(tables, known);
    TableInfosNamesDistinct(tables, known);
    JsonTableNodes(rels, infos);
    var nodes := GraphJson(BuiltGraph(rels, infos)).nodes;
    forall i | 0 <= i < |tables|
      ensures nodes[i].ambiguous == (|nodes[i].ambiguousCols| > 0) && NoDupNames(nodes[i].ambiguousCols)
    {
      TableInfoConsistent(tables[i], known);
    }
  }
}
