# MySQL schema visualiser — a Dafny model of its core

The visualiser reads the tables and columns of a MySQL database and guesses foreign keys
from column names. A column `<prefix>_id` that is not a primary key refers to the table
named by the lower-cased prefix, when such a table exists. The tables and the guessed
references become a directed graph, which is handed to a browser page as JSON. On the
page the user resolves the columns that could not be matched ("ambiguous" columns) by
picking a table, removes connections, imports and exports the graph, resets it, and lays
it out by levels. This project models that core and proves properties of the model:

- `builder.dfy`: `analyze_schema`, `build_graph` and `graph_to_json` of
  `graph/builder.py`. The two loops of `analyze_schema` are methods proved against
  specification functions. `build_graph` runs over a `DiGraph` class.
- `digraph.dfy`: the part of networkx's `DiGraph` that `build_graph` uses, namely
  `add_node` and `add_edge`, with nodes in insertion order and one edge per ordered pair.
- `connection_config.dfy`: `get_connection_config` of `db/schema.py`, as a pure function.
  The `[mysql]` section of the configuration file is an optional map.
- `graph_store.dfy`: the page's graph as mutable JavaScript objects. Nodes, links and the
  `{nodes, links}` object are classes; `Serialized` is the value `JSON.stringify` writes.
- `state.js` → `state.dfy`: `rehydrateGraph`, which swaps link endpoints for node objects
  in place, and `loadGraph`.
- `modals.js` → `modals.dfy`: the candidate list and its search filter, the click that
  resolves a column, and the import.
- `graph.js` → `graph_view.dfy`: `removeLink`, the fill-colour rule and the link key.
- `sorting.js` → `sorting.dfy`: the level relaxation, bounded to 100 passes, and the
  row-by-level layout.
- `visualizer.js` → `legacy.dfy`: the older single-file page. Its resolve click records no
  `ambiguousData`, and its link removal never makes a column ambiguous again.
- `seqs.dfy`, `text.dfy` and `wrappers.dfy` hold shared helpers:
  - order-preserving filtering;
  - ASCII lower-casing, substring search and joining;
  - `Option`.

Outside effects are passed in as parameters:

- the stored `localStorage` state, as an optional value;
- the answer to `confirm`, as a boolean;
- the outcome of `JSON.parse`, as an optional value;
- the configuration file's `[mysql]` section, as an optional map.

Pixel positions are kept as indices. A `Pin` records slot `s` of `n` slots in a row and
level `l` of `L` rows.

## Model

| member | source | states |
|---|---|---|
| Text.Lower | static/js/modals.js:63-65 | Lower-casing keeps the length and leaves no capital letter. Every other character stays where it is, and each capital becomes its own small letter. |
| Text.LowerIdempotent | static/js/modals.js:63-65 | Lower-casing a lower-cased text changes nothing. |
| Text.Contains | static/js/modals.js:64 | `includes` holds exactly when the text occurs in the string at some position. |
| Text.ContainsEmpty | static/js/modals.js:91 | Every string contains the empty text. |
| Text.JoinShape | graph/builder.py:32 | Joining no parts gives the empty text. Otherwise the result starts with the first part and ends with the last, and its length is the parts' total plus one separator between each pair of neighbours. |
| Seqs.Filter | static/js/graph.js:56 | Every element `filter` keeps is an element of the input that satisfies the condition. Every element that satisfies it is kept. The result is no longer than the input. |
| Builder.IdPrefix | graph/builder.py:19-21 | The column-name pattern matches exactly a name of at least four characters that ends in `_id` in any case and has no newline before that suffix. The captured prefix is non-empty, and the name is prefix + suffix. |
| Builder.IdPrefixExamples | graph/builder.py:8 | The pattern is greedy and case-insensitive. `user_id_id` gives prefix `user_id`, `Owner_ID` gives `Owner`, and `_id` and `user_idx` do not match. |
| Builder.UpperIdExample | graph/builder.py:8 | The suffix matches in any case: `Owner_ID` gives the prefix `Owner`. |
| Builder.RelationshipsOf | graph/builder.py:16-24 | Each relationship of a table has the table as child and a known table as parent. The parent is lower-cased and differs from the table's lower-cased name. The relationship's column is not a primary key. |
| Builder.AmbiguousOf | graph/builder.py:25-26 | Each ambiguous entry is a non-primary-key column named `<prefix>_id`. |
| Builder.Snippets | graph/builder.py:14-30 | There is exactly one snippet per column, in column order. Each snippet is the column's own (`ColumnSnippet`). |
| Builder.HighlightedIffAmbiguous | graph/builder.py:25-28 | A snippet is wrapped in the yellow span exactly when its column is ambiguous. Otherwise it is the plain `name (type)`. |
| Builder.AllRelationships | graph/builder.py:9-23 | Across all tables, every relationship's parent is a known table. It differs from the child's lower-cased name. |
| Builder.TableInfos | graph/builder.py:31-35 | There is one `table_info` entry per table, in table order. |
| Builder.RelationshipIff | graph/builder.py:19-24 | A relationship is listed exactly when some column of the table refers to its parent. The relationship is then (table, lower-cased prefix, column name). |
| Builder.AmbiguousIff | graph/builder.py:19-28 | `(name, type)` is listed as ambiguous exactly when some column with that name and type matches the pattern but names an unknown table or the table itself. |
| Builder.InColumnOrder | graph/builder.py:13-30 | Both lists grow in column order. The lists for the first k columns are prefixes of the lists for all columns. |
| Builder.RelationshipsDistinct | graph/builder.py:13-24 | With distinct column names, no relationship is listed twice. |
| Builder.ReferenceYieldsOneRelationship | graph/builder.py:19-24 | A non-primary-key column that refers to another known table yields exactly one relationship (multiplicity 1). It yields no ambiguous entry. |
| Builder.BareIdIsNeither | graph/builder.py:8 | A column named `_id` is neither a reference nor ambiguous, because the pattern needs a non-empty prefix. |
| Builder.IsAmbiguousIff | graph/builder.py:34 | `is_ambiguous` holds exactly when some column of the table is ambiguous. |
| Builder.AmbiguousNoDupNames | graph/builder.py:26 | With distinct column names, no name is listed twice among the ambiguous columns. |
| Builder.TableInfoConsistent | graph/builder.py:31-35 | With distinct column names, an entry's `is_ambiguous` equals "`ambiguous_cols` non-empty". The list repeats no name. |
| Builder.SchemaRelationshipIff | graph/builder.py:9-23 | Over the whole schema, a relationship is listed exactly when some column of some table refers to its parent. It is then (that table, the parent, the column name). |
| Builder.AnalyzeTable | graph/builder.py:10-35 | The loop over one table's columns returns that table's relationships and its `table_info` entry as the specification functions define them. |
| Builder.AnalyzeSchema | graph/builder.py:4-36 | `analyze_schema` returns the relationships of all tables, in table and column order, and one `table_info` entry per table. |
| Builder.TableInfosNamesDistinct | graph/builder.py:31 | With distinct table names, the `table_info` entries have distinct names. |
| Builder.AddTables | graph/builder.py:40-47 | Adding the table nodes keeps the graph well-formed and adds no edge. |
| Builder.TablesAreNodes | graph/builder.py:40-47 | With distinct names, the nodes after the first loop are exactly the table names, in order. |
| Builder.TableHasItsAttributes | graph/builder.py:41-47 | Each table's node carries the entry's `info` and `ambiguousCols`, and `ambiguous = wasAmbiguous = is_ambiguous`. |
| Builder.TableNodesAreNames | graph/builder.py:40-47 | After the first loop, every node is the name of some table. |
| Builder.AddRelationships | graph/builder.py:48-49 | Adding the edges keeps the earlier nodes in place with their attributes. Any new node is an endpoint of some relationship and has no attributes. |
| Builder.RelationshipIsEdge | graph/builder.py:48-49 | Every relationship yields an edge from its parent to its child. |
| Builder.LastColumn | graph/builder.py:49 | A pair has a column exactly when some relationship joins it. |
| Builder.LastColumnIsLast | graph/builder.py:48-49 | The column kept for a pair is that of a relationship joining the pair that no later relationship joins. A later column overwrites an earlier one. |
| Builder.EdgesAreRelationships | graph/builder.py:48-49 | Every edge joins the parent and child of some relationship. It holds the last such relationship's column, with `manual` false. |
| Builder.BuiltGraph | graph/builder.py:38-50 | The built graph is well-formed: every successor is a node and every edge has attributes. |
| Builder.AddTablesNoRepeats | graph/builder.py:40-47 | Adding table nodes never lists a node, or one node's successor, twice. |
| Builder.AddRelationshipsNoRepeats | graph/builder.py:48-49 | Adding edges never lists a node, or one node's successor, twice. |
| Builder.BuiltGraphNoRepeats | graph/builder.py:38-50 | The built graph has no repeated node and no repeated successor. |
| Builder.AddTableNodes | graph/builder.py:40-47 | The first loop leaves the `DiGraph` holding the specification's `AddTables` graph, still valid. |
| Builder.AddRelationshipEdges | graph/builder.py:48-49 | The second loop leaves the `DiGraph` holding the specification's `AddRelationships` graph, still valid. |
| Builder.BuildGraph | graph/builder.py:38-50 | `build_graph` returns a new valid `DiGraph` whose contents are `BuiltGraph` of its inputs. |
| Builder.OutRecords | graph/builder.py:67-73 | There is one link record per successor of a node, in successor order, from the node to that successor. |
| Builder.LinkRecords | graph/builder.py:66-73 | Every link record is the record of an existing edge, with plain-id endpoints. Every edge has its record. |
| Builder.NodeList | graph/builder.py:53-65 | The first loop of `graph_to_json` yields one record per node, in node order, with the defaults for absent attributes. |
| Builder.AppendOutRecords | graph/builder.py:67-73 | The records of one node's edges are appended after the records already built. |
| Builder.LinkList | graph/builder.py:66-73 | The second loop yields the edge records node by node. |
| Builder.GraphToJson | graph/builder.py:52-74 | `graph_to_json` returns the node records followed by the edge records of the graph. |
| Builder.OutRecordsOnePerPair | graph/builder.py:67-73 | One node's link records never join the same pair twice. |
| Builder.LinkRecordsOnePerPair | graph/builder.py:66-73 | Over distinct nodes, the link records never join the same pair twice. |
| Builder.OneLinkPerPair | graph/builder.py:38-74 | The JSON of a built graph has at most one link per (source, target) pair. |
| Builder.RecordsFromRelationships | graph/builder.py:48-73 | Every link record of a graph built from an edgeless start comes from a relationship. It goes parent to child with plain ids, holds the pair's last column, has `manual` false and carries no `ambiguousData`. |
| Builder.RecordsFromEdges | graph/builder.py:64-73 | When every edge holds the last column of a relationship for its pair, every link record does too, with plain ids, `manual` false and no `ambiguousData`. |
| Builder.JsonLinksAreRelationships | graph/builder.py:38-74 | Every link of the JSON comes from a relationship in that sense. |
| Builder.JsonLinkOfRelationship | graph/builder.py:38-74 | Every relationship appears in the JSON as a link from its parent to its child. The link carries the pair's last column and is not manual. |
| Builder.JsonTableNodes | graph/builder.py:38-65 | With distinct names, the JSON starts with one node record per table, in order. Each record carries the entry's columns HTML and ambiguous columns, has `ambiguous` and `wasAmbiguous` equal to `is_ambiguous`, and has no position. |
| Builder.LowerCasedParentExample | graph/builder.py:21-23 | The parent is the lower-cased prefix, not the table's own name. A column `users_id` of `orders` refers to `users`, which is not the name of table `Users`. |
| Builder.AddedRecords | graph/builder.py:48-65 | A node that adding the edges introduces has an empty record, and its id is an endpoint of some relationship. |
| Builder.JsonEndpointNodes | graph/builder.py:38-65 | A node record whose id is no table's name comes from a relationship endpoint. It has empty `info`, no ambiguous columns and both flags false. |
| Builder.RecordIdsAreNodes | graph/builder.py:54-56 | Every node of the graph has a node record with its id. |
| Builder.JsonEndpointsResolve | graph/builder.py:66-73 | Rehydrating the JSON on the page resolves every link endpoint to a node, because every endpoint id has a node record. |
| Builder.SchemaJsonTableNodes | graph/builder.py:4-65 | Over a whole schema with distinct table and column names, each table's node record has its name and no position. Its `ambiguous` equals "unresolved columns remain", its list repeats no name, and `wasAmbiguous` equals `ambiguous`. |
| DiGraphs.WithNode | graph/builder.py:41-47 | `add_node` keeps the graph well-formed. A new node goes last with no successors. An existing node keeps its place and has its attributes updated key by key. Nothing else changes. |
| DiGraphs.WithEndpoint | graph/builder.py:49 | `add_edge` adds a missing endpoint without attributes. Existing nodes and edges are untouched. |
| DiGraphs.WithEndpoints | graph/builder.py:49 | Both endpoints become nodes. Only they can be new, and no edge changes. |
| DiGraphs.WithSuccessor | graph/builder.py:49 | `v` becomes a successor of `u` and every old successor stays. The only new successor is `v` of `u`. The edge's attributes are updated key by key. |
| DiGraphs.WithEdge | graph/builder.py:49 | After `add_edge(u, v)`, both are nodes and `v` is a successor of `u`. Other edges and old node attributes are kept. New nodes are `u` or `v` and have no attributes. |
| DiGraphs.WithNodeNoRepeats | graph/builder.py:41-47 | `add_node` never lists a node twice. |
| DiGraphs.WithSuccessorNoRepeats | graph/builder.py:49 | Adding a successor never lists a successor of one node twice. |
| DiGraphs.WithEdgeNoRepeats | graph/builder.py:49 | `add_edge` never lists a node, or one node's successor, twice. |
| DiGraphs.DiGraph.constructor | graph/builder.py:39 | A new `DiGraph` is empty. |
| DiGraphs.DiGraph.AddNode | graph/builder.py:41-47 | The object's new contents are `WithNode` of its old contents. |
| DiGraphs.DiGraph.AddEdge | graph/builder.py:49 | The object's new contents are `WithEdge` of its old contents. |
| DiGraphs.DiGraph.LinkSuccessor | graph/builder.py:49 | Once both endpoints are nodes, the object's new contents are `WithSuccessor` of its old contents. |
| ConnectionConfig.ParseInt | db/schema.py:21 | `getint` succeeds exactly on an optional sign followed by at least one decimal digit. |
| ConnectionConfig.ParseShowInt | db/schema.py:21 | Every integer's decimal text is read back as that integer. |
| ConnectionConfig.AllGivenUsesArgs | db/schema.py:4-11 | With host, user, password and database all given and non-empty, the result is exactly the command-line values. |
| ConnectionConfig.NoSectionUsesArgs | db/schema.py:12-14 | Without a `[mysql]` section, the result is exactly the command-line values. |
| ConnectionConfig.GetConnectionConfig | db/schema.py:4-23 | Whenever a configuration is returned, each value given (truthy) on the command line is the one used, the port included. |
| ConnectionConfig.SectionFillsGaps | db/schema.py:16-22 | With a section consulted, every missing or empty argument is taken from the section. `host` falls back to `localhost` and `port` to 3306 only when the key is absent. |
| ConnectionConfig.FailsOnlyOnBadPort | db/schema.py:11-21 | The call fails exactly when the section is consulted, no port is given, and the section's `port` is not an integer. |
| GraphStore.Node.FromData | static/js/state.js:12 | A parsed node object holds exactly the parsed record. |
| GraphStore.Link.FromData | static/js/state.js:12 | A parsed link object holds exactly the parsed record. Its endpoints are still in JSON form. |
| GraphStore.Graph.Serialized | static/js/state.js:25 | The serialised graph has one record per node and one per link. |
| GraphStore.Materialize | static/js/state.js:12 | `JSON.parse` yields a new graph of new, distinct objects whose serialisation is the parsed value. Endpoints are left in JSON form. |
| State.LastIndex | static/js/state.js:33 | The id map finds the last node with an id, or nothing when no node has it. |
| State.ResolveFindsLastWithId | static/js/state.js:33-44 | An endpoint resolves to a node exactly when some node has its id. That node has the id and no later node does. Otherwise the endpoint becomes `undefined`. |
| State.ResolveIdempotent | static/js/state.js:35-44 | Resolving an already resolved endpoint changes nothing. |
| State.LastIndexSameIds | static/js/state.js:33 | Node lists with the same ids, position by position, map an id to the same position. |
| State.RehydrateSerializedCopy | static/js/state.js:25-44 | Serialising a resolved endpoint, parsing it and resolving it against a copy with the same ids gives the same id again. It is still a node. |
| State.ResolvedData | static/js/state.js:35-44 | As data, a resolved endpoint is an object with the id it names when some node has that id. Otherwise it is absent. |
| State.RehydratedData | static/js/state.js:32-46 | As data, rehydration keeps the nodes, the number of links and every link field except the endpoints. |
| State.SerializeResolved | static/js/state.js:32-46 | Serialising a resolved endpoint gives `ResolvedData` of its JSON form. |
| State.RehydratedDataIdempotent | static/js/state.js:32-46 | Rehydrating twice is rehydrating once. |
| State.RehydrateGraph | static/js/state.js:32-46 | Every link endpoint becomes the node with the id it names, or `undefined`. The lists, link count and order, other fields and node objects are untouched. As data, the graph becomes `RehydratedData` of what it was. |
| State.RehydrateLink | static/js/state.js:35-44 | One step of the `forEach`: both endpoints of the link become what they resolve to, and its other fields stay. |
| State.RehydrateLinks | static/js/state.js:34-45 | The `forEach` loop sets each link's endpoints to their resolved nodes and changes nothing else. |
| State.StateModule.constructor | static/js/state.js:2-3 | Before loading, `graph` and `defaultGraph` are both undefined. |
| State.StateModule.LoadGraph | static/js/state.js:9-19 | Stored state wins, as new objects. Otherwise the graph is `defaultData` itself. `defaultGraph` is a value copy of `defaultData`, which is untouched. |
| Modals.Candidates | static/js/modals.js:61 | Every candidate is a node with an id other than the target's. Every such node is a candidate. The target never is. |
| Modals.FilterCandidates | static/js/modals.js:62-65 | The list shown is exactly the candidates whose lower-cased id contains the lower-cased text. |
| Modals.EmptySearchShowsAll | static/js/modals.js:91 | For the empty text, every candidate is shown. |
| Modals.SearchIgnoresCase | static/js/modals.js:63-65 | Texts differing only in ASCII case show the same list. |
| Modals.FirstNamed | static/js/modals.js:81 | `findIndex` finds the first entry with the name, or none exactly when no entry has it. |
| Modals.RemoveFirstNamed | static/js/modals.js:81-82 | `splice` removes one entry when the name is listed and nothing otherwise. Every remaining entry was listed. |
| Modals.RemoveFirstNamedKeepsOthers | static/js/modals.js:81-82 | On a list without repeated names, the removal keeps every entry of another name, in order. |
| Modals.RemoveFirstNamedDropsName | static/js/modals.js:81-85 | On a list without repeated names, the name is gone afterwards and names stay unique. |
| Modals.ChooseCandidate | static/js/modals.js:73-89 | Exactly one new manual link (chosen → node, the column, `ambiguousData` the column tuple) is appended. The first entry with the column's name leaves the list. `ambiguous` turns false only when the list empties. `wasAmbiguous` and all other links are untouched. Consistency is kept. |
| Modals.ImportGraph | static/js/modals.js:166-177 | Unparsable input changes nothing. Otherwise nodes and links are replaced by new objects holding the parsed records, then rehydrated. When `nodes` or `links` is missing, the replacement has already happened and rehydration fails. |
| GraphView.PropId | static/js/graph.js:39 | `d.target.id` is defined exactly for object endpoints. |
| GraphView.FindNode | static/js/graph.js:39 | `find` gives the first node with the id, or none when no node has it. |
| GraphView.MarkAmbiguous | static/js/graph.js:48-53 | The old entries stay as a prefix. Nothing is added exactly when the name is already listed; otherwise one entry is added. Afterwards the name is listed, by the tuple itself unless the name already was. A list with unique names keeps them unique. |
| GraphView.MarkAmbiguousIdempotent | static/js/graph.js:48-53 | Marking the same name a second time changes nothing. |
| GraphView.FillOf | static/js/graph.js:136-141 | Yellow exactly when columns remain. Green exactly when the node was ambiguous and none remain. Blue otherwise. |
| GraphView.MarkedNodeIsYellow | static/js/graph.js:48-54 | A node just marked ambiguous is drawn yellow. |
| GraphView.MarkTarget | static/js/graph.js:41-54 | The removed link's target is marked as having been ambiguous and as ambiguous. Its list becomes `MarkAmbiguous` of the old list with the restored column, and its info and pin stay. |
| GraphView.RemoveLink | static/js/graph.js:33-60 | Declined: nothing changes. Confirmed: links become the old ones minus every occurrence of `d`, in order. The first node with the target's id becomes ambiguous and was-ambiguous and gets the restored column unless already listed. No other node changes. The link goes even when no node is found. |
| GraphView.RevertedTargetIsYellow | static/js/graph.js:39-54 | After a confirmed removal the target is consistent and yellow, and lists the restored column exactly once. |
| GraphView.ResolveThenRevert | static/js/graph.js:42-53 | On the column list alone: taking a column out as the resolve click does, then marking it again with the tuple a manual link remembers, gives the column back verbatim. Every other entry is kept, and only the column's position may move to the end. |
| GraphView.ResolveThenRevertSingle | static/js/graph.js:42-53 | On the column list alone: a list holding only the resolved column gets back exactly that column. |
| GraphView.KeyIdentifiesLink | static/js/graph.js:85 | A key part is the id of an object endpoint and `undefined` for an id-string endpoint, such as those of a freshly added manual link. While no key part contains `-`, two links share a key exactly when their source key parts, target key parts and columns agree. |
| GraphView.RehydratedKeyIdentifiesLink | static/js/graph.js:85 | For links whose endpoints are node objects, and while no id contains `-`, two links share a key exactly when their source ids, target ids and columns agree. |
| GraphView.SameTripleSameKey | static/js/graph.js:85 | Two rehydrated links with the same ids and column share a key. |
| GraphView.KeyIsNotInjective | static/js/graph.js:85 | Ids containing `-` let two different triples share a key. |
| Sorting.Edges | static/js/sorting.js:18-21 | Each link contributes one (source id, target id) pair. |
| Sorting.InitialLevels | static/js/sorting.js:5-9 | Every node id starts at level 0. |
| Sorting.RelaxLink | static/js/sorting.js:18-27 | A link can only raise a level, and only when both ids have levels. A link that moves nothing is already satisfied. Every level stays explained by a walk. |
| Sorting.MoveDownKeepsExplanation | static/js/sorting.js:23-26 | Moving a child to its parent's level plus one keeps every level explained by a walk of that many links. |
| Sorting.RelaxationPass | static/js/sorting.js:15-28 | One pass never lowers a level and keeps every level explained. A pass that changes nothing has found a fixed point. |
| Sorting.SettledAlongWalk | static/js/sorting.js:22-27 | At a fixed point, each link of a walk adds at least one level. |
| Sorting.SettledHasNoCycle | static/js/sorting.js:11-30 | A fixed point rules out a cycle among ids with levels. |
| Sorting.SettledLevelIsLongestWalk | static/js/sorting.js:11-30 | At a fixed point, each level is the length of the longest walk ending at its id. |
| Sorting.ComputeHierarchicalLevels | static/js/sorting.js:4-32 | Missing endpoints make the call fail. Otherwise every node id has a level. There are 1 to 100 passes, and all 100 unless the last changed nothing. Levels are explained by walks and settled when stable, and a cycle uses all 100 passes. |
| Sorting.LevelsOnly | static/js/sorting.js:4-31 | The value `computeHierarchicalLevels` returns. It fails exactly when some link endpoint is missing. Otherwise it gives a level to exactly the node ids, each level is explained by a walk of links one id longer than the level, and the levels are those of some run of the relaxation (`Relaxed`). |
| Sorting.MaxLevel | static/js/sorting.js:38 | The result bounds every node's level and is reached by some node. |
| Sorting.Group | static/js/sorting.js:40-45 | A level's row holds exactly the nodes at that level. |
| Sorting.GroupByLevel | static/js/sorting.js:40-45 | `nodesByLevel` maps each level that occurs to its row. Other levels have empty rows. |
| Sorting.PlaceRow | static/js/sorting.js:48-54 | Every node of a row is pinned in the slot of its position, in a row of the given size. Nothing but pins changes. |
| Sorting.PlaceRows | static/js/sorting.js:47-55 | Every node is pinned in the row of its level. Only pins change. |
| Sorting.PlacedInRowOrder | static/js/sorting.js:51-54 | In a row without repeats, the i-th node has slot i + 1 of `|row| + 1`. |
| Sorting.LayOut | static/js/sorting.js:37-55 | Once the levels exist, every node is pinned in its row, with `maxLevel + 1` rows. |
| Sorting.ApplyHierarchicalLayout | static/js/sorting.js:35-56 | Without levels nothing changes. Otherwise the levels are explained by walks of the links, every node is pinned in the row of its level, and only pins change. |
| Legacy.Visualizer.Load | static/js/visualizer.js:5-33 | Stored state wins. Otherwise the graph is `GRAPH_DATA` itself. `defaultGraph` is a value copy, and the graph is rehydrated. |
| Legacy.Visualizer.Reset | static/js/visualizer.js:348-358 | Declined: nothing changes. Confirmed: a new graph parsed from the never-edited `defaultGraph`, rehydrated. |
| Legacy.Visualizer.RemoveLink | static/js/visualizer.js:104-114 | Confirmed: exactly the occurrences of `d` leave the links and no node changes. Declined: nothing changes. |
| Legacy.Visualizer.ChooseCandidate | static/js/visualizer.js:319-334 | One manual link without `ambiguousData` is appended. The first same-name entry leaves the list. `ambiguous` turns false only when the list empties. |
| Legacy.ClickableIffYellow | static/js/visualizer.js:198-226 | A node reacts to a click exactly when it is drawn yellow. |
| Legacy.ResolveThenRemoveLosesColumn | static/js/visualizer.js:319-334 | After resolving, the column is gone from the list and the list is one entry shorter. That the later removal cannot bring it back follows from the frame of `Legacy.Visualizer.RemoveLink`, which changes no node. |

## Left out

- Rendering is not modelled: D3, SVG, zoom, hover effects, tooltips and the construction of modal dialogs. It is user-interface plumbing.
- The force simulation, dragging and the force-settings dialog are not modelled. They are floating-point physics inside the d3 library.
- `x`, `y`, `vx` and `vy` are not modelled. `graph_to_json` writes them as `None`, and the model's node records carry no position.
- The pixel arithmetic of the layout is not modelled. A pin records slot and level indices, not `fx`/`fy` values.
- Storage, clipboard and file I/O are not modelled (`localStorage`, export, `FileReader`, JSON text). The stored state and the parse outcome are parameters.
- A stored `graphState` that is the empty string is treated like an absent one.
- `confirm` is a boolean parameter, and `alert` is not modelled.
- The refresh callbacks and `updateStorage` are outside notifications and are not modelled. main.js, which wires them, is not part of this model.
- main.py, `get_tables_and_columns`, main.js, simulation.js and rollup.config.js are not part of this model. They hold the command-line interface, database cursor calls, event wiring and bundling.
- Lower-casing is ASCII only, and no column name contains a newline. Full Unicode case mapping and `$` matching before a trailing newline are not modelled.
- DESCRIBE rows keep only Field, Type and Key. Null, Default and Extra are never read by the core.
- networkx is modelled only as far as `add_node`, `add_edge`, node iteration and edge iteration go.
- Builder.SchemaJsonTableNodes: requires distinct table and column names, as a MySQL schema has. Duplicate keys cannot occur in the Python dictionary, so the model lists tables as a sequence with distinct names.
- Modals.ImportGraph: a parsed value without `nodes` or `links` leaves `undefined` there in the source. The model stores an empty list instead, and still reports the failed rehydration.
- ConnectionConfig.ParseInt: accepts an optional sign and ASCII digits only. Python's `int` also allows surrounding whitespace, underscores between digits and other Unicode digits.
- ConnectionConfig.GetConnectionConfig: ConfigParser's interpolation, its DEFAULT section and its case-insensitive keys are not modelled. The section is a plain map of exact keys.
- Sorting.ComputeHierarchicalLevels: does not prove that 100 passes suffice on acyclic graphs. A long enough chain can still be moving at pass 100, and the model reports this through `stable`.
- Sorting.LevelsOnly: returns what the source returns and drops the pass count and stability flag. Their existence is still stated.
- GraphStore.NodeData: `ambiguousCols` is always present. The source also accepts an imported node without it (static/js/modals.js:169), and the fill rule and the resolve dialog read such a node as having an empty list, which `GraphView.FillOf` with `None` states.
- GraphView.RemoveLink: does not model removing a link whose target node has no `ambiguousCols`. There the source sets `wasAmbiguous` and then throws at static/js/graph.js:48, so the node is left half-updated and the link stays. Such a node cannot be represented here. A link with an absent (`undefined` or `null`) source or target is excluded by a precondition: the source throws on `d.source.id` or `d.target.id` in the confirm message (static/js/graph.js:36) before anything changes.
- Legacy.Visualizer.RemoveLink: a link with an absent source or target is excluded by a precondition: the source throws on `d.source.id` or `d.target.id` in the confirm message (static/js/visualizer.js:107) before anything changes.
- GraphView.ResolveThenRevert: the round trip is proved on the column list, not over `Modals.ChooseCandidate` followed by `GraphView.RemoveLink`. A freshly added manual link has id-string endpoints, and `RemoveLink` on an id-string target finds no node. In the page, d3's link force (`forceLink(...).id(d => d.id)` in static/js/simulation.js:8-9) replaces those strings with node objects when the graph is redrawn (static/js/graph.js:157). Only after that does removal restore the column. That rewrite is part of the force simulation and is not modelled.
- Sorting.MaxLevel: gives 0 for no nodes where `Math.max()` gives `-Infinity`. No node is then placed, so nothing depends on it.
