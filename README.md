# QuantoGraph reconciliation, modelled in Dafny

The graph editor keeps one long-lived `QuantoGraph` per open graph. Whenever the
rewriting engine sends the graph back as XML, `fromXml` merges that description
into the existing object instead of building a new one. A vertex whose name is
still declared keeps its object identity and takes on the declared type and angle.
A newly declared name gets a new vertex. A vertex that is no longer declared is
removed. The boundary list, the edges and the bang boxes are rebuilt from the
description. The editor keys positions, locks and selections on vertex objects,
so this identity preservation is what keeps that state alive across updates.

The model has five modules:

- `Wrappers`: `Option`, `Result` and `Outcome`. A fatal error of the source is a
  `Fail` outcome.
- `Descriptions`: the parsed XML description. An absent child element is `None`.
  It also defines the reading of one vertex entry and of the list of entries.
- `Vertices`: the `QVertex` class, with a constant name and mutable type, angle
  and `stale` flag (the source's `old`). It also defines the name order that
  `HasName.NameComparator` sorts by, and `List.indexOf`.
- `Resolution`: the specification functions of the reconciliation. `Merged` gives
  the vertex fields after the vertex phase. `ResolveEdges`, `ResolveBoxes` and
  `BoundaryOf` give the lists the later phases build. The module also holds their
  lemmas.
- `Graphs`: the `QuantoGraph` class. Its fields are `vertices`, `edges`,
  `boundaryVertices`, `bangBoxes`, `changeListeners` and `saved`. Its methods
  follow the source loop by loop. Each method's `ensures` ties the new state to
  the specification functions.

The main results:

- `FromXml` fails exactly when `ReconcileError` says so, with the same error.
  On success:
  - the surviving vertices are exactly the declared names' old objects;
  - each live name carries the fields of its last entry;
  - the boundary list is the boundary vertices sorted by name;
  - the edges and bang boxes are what the entries resolve to.
- Reconciling twice with a self-contained description succeeds both times.
  The second pass changes nothing: the same vertex objects, the same fields and
  the same lists (`FromXmlAgain`, `ReconcileTwice`).
- The edges and bang boxes are looked up in the map taken before pruning. That map
  still holds the vertices the prune removed, so an edge or a bang box can name a
  vertex the description no longer declares and still resolve, to the removed
  vertex (`EdgeToPrunedVertex`). In the program, the graph library's `addEdge`
  then puts such an edge's endpoint back into the graph. The model leaves that
  re-adding out: its vertex set holds exactly the declared names, and the removed
  vertex stays out. Idempotence is proved only for descriptions that refer to no
  names outside their own.

Two consequences of the order in which the code works, which the model keeps:

- A failed update is not rolled back. A bad vertex entry is found only after the
  boundary list and the edges are cleared, every vertex is marked stale and the
  earlier entries are merged. A bad edge or bang-box entry is found after the stale
  vertices are pruned. `FromXml`, `MergeAndNotify` and `FromXmlReader` state the
  state they leave after a bad vertex entry, and the merged vertices after a bad
  edge or bang-box entry.
- The edges and bang boxes are looked up in the map taken before pruning, so an
  edge that names a vertex the description no longer declares is still built
  (`EdgeToPrunedVertex`).

## Model

| member | source | states |
|---|---|---|
| Graphs.QuantoGraph.GetVertexMap | gui/src/quanto/gui/QuantoGraph.java:50-58 | returns every vertex under its name, and marks every vertex stale with its type and angle untouched |
| Graphs.StaleSnapshot | gui/src/quanto/gui/QuantoGraph.java:53-56 | marking each vertex stale and nothing else is `MarkedStale` of the earlier field snapshot |
| Graphs.NameIndex | gui/src/quanto/gui/QuantoGraph.java:50-58 | the name index of a set of uniquely named vertices has exactly their names as keys and exactly those vertices as values |
| Graphs.NameIndexOf | gui/src/quanto/gui/QuantoGraph.java:50-58 | a map keyed by name is the name index of its own values, and those values have unique names |
| Descriptions.ParseVertex | gui/src/quanto/gui/QuantoGraph.java:118-143 | an entry fails with BadVertex exactly when a name or boundary child is missing, a non-boundary entry has no colour, or an angle expression has no `as_string`; otherwise it keeps the name, is a boundary iff `boundary` reads "true" and else has its colour as type, and takes its angle from `as_string`, or "0" without an angle expression |
| Descriptions.ParseDescribeRoundTrip | gui/src/quanto/gui/QuantoGraph.java:118-134 | reading the entry that describes a vertex gives back that vertex's fields |
| Descriptions.ParseVertices | gui/src/quanto/gui/QuantoGraph.java:114-143 | reading the vertex entries in order can fail only with BadVertex, the error a missing required child raises |
| Descriptions.ParseVerticesMeaning | gui/src/quanto/gui/QuantoGraph.java:114-143 | the entries read exactly when each entry reads, and then there is one reading per entry, at the entry's position |
| Descriptions.ParseVerticesFails | gui/src/quanto/gui/QuantoGraph.java:135-142 | one entry that does not read makes the whole vertex phase fail |
| Descriptions.ParseVerticesStep | gui/src/quanto/gui/QuantoGraph.java:114-157 | reading one more entry appends its reading to the entries read so far |
| Descriptions.LastWithIsLast | gui/src/quanto/gui/QuantoGraph.java:145-152 | the entry whose fields a repeated name ends up with is the last entry of that name |
| Graphs.QuantoGraph.MergeVertex | gui/src/quanto/gui/QuantoGraph.java:145-156 | a known name keeps its vertex object, which takes on the entry's fields and is no longer stale; an unknown name gets a fresh vertex added to the graph; a boundary vertex is appended to the boundary list |
| Graphs.QuantoGraph.MergeStep | gui/src/quanto/gui/QuantoGraph.java:114-157 | one turn of the vertex loop keeps the merge invariant, adds only fresh vertices and keeps every known name's object |
| Graphs.QuantoGraph.MergeVertices | gui/src/quanto/gui/QuantoGraph.java:114-157 | fails with BadVertex exactly when some entry does not read; otherwise the lookup holds the old names and the declared ones, and the fields are `Merged` over the entries |
| Resolution.MergedSnoc | gui/src/quanto/gui/QuantoGraph.java:145-152 | one more entry overwrites the fields under its name |
| Resolution.MergedKeys | gui/src/quanto/gui/QuantoGraph.java:145-152 | after the vertex phase the names with fields are the earlier names plus the declared ones |
| Resolution.MergedAt | gui/src/quanto/gui/QuantoGraph.java:145-163 | a declared name carries the fields of its last entry and is not stale; an undeclared name keeps its earlier fields |
| Resolution.MergedOverDeclared | gui/src/quanto/gui/QuantoGraph.java:145-152 | merging over fields stored only under declared names gives the same fields as merging into an empty graph |
| Resolution.ValuesOfNewKey | gui/src/quanto/gui/QuantoGraph.java:146-148 | putting a vertex under a new name adds exactly that vertex to the map's values |
| Vertices.QVertex.UpdateTo | gui/src/quanto/gui/QuantoGraph.java:150 | the known vertex takes on the type, angle and stale flag of the freshly read one |
| Vertices.NameLeTotal | gui/src/quanto/gui/QuantoGraph.java:159 | any two names are ordered one way or the other |
| Vertices.NameLeTransitive | gui/src/quanto/gui/QuantoGraph.java:159 | the name order is transitive |
| Vertices.NameLeAntisymmetric | gui/src/quanto/gui/QuantoGraph.java:159 | names ordered both ways are equal |
| Vertices.LowerBoundKept | gui/src/quanto/gui/QuantoGraph.java:159 | a name below every element stays below every element of any permutation |
| Vertices.InsertByName | gui/src/quanto/gui/QuantoGraph.java:159 | inserting into a name-ordered list keeps it ordered and adds exactly that vertex |
| Vertices.SortByName | gui/src/quanto/gui/QuantoGraph.java:159 | the sorted boundary list is in name order and is a permutation of the list before sorting |
| Resolution.BoundaryOfHas | gui/src/quanto/gui/QuantoGraph.java:154-156 | a vertex is in the boundary list exactly when some entry of its name declares a boundary |
| Resolution.BoundaryOfOnce | gui/src/quanto/gui/QuantoGraph.java:154-156 | when entry names are distinct, no vertex appears twice in the boundary list |
| Resolution.BoundaryOfSnoc | gui/src/quanto/gui/QuantoGraph.java:154-156 | a boundary entry appends its vertex to the boundary list, and any other entry leaves the list as it was |
| Resolution.BoundaryOfAgree | gui/src/quanto/gui/QuantoGraph.java:154-156 | the boundary list depends only on the vertices under the declared names |
| Graphs.MergedLookupSnoc | gui/src/quanto/gui/QuantoGraph.java:145-156 | one more entry adds its name to the lookup, keeps the earlier names' vertices, and extends the boundary list by its vertex when it is a boundary |
| Graphs.QuantoGraph.PruneStale | gui/src/quanto/gui/QuantoGraph.java:161-164 | exactly the vertices still marked stale are removed |
| Graphs.PrunedByName | gui/src/quanto/gui/QuantoGraph.java:161-164 | after the merge, a vertex survives the prune exactly when its name is declared |
| Graphs.PrunedLookup | gui/src/quanto/gui/QuantoGraph.java:161-164 | the surviving vertices have unique names, exactly the declared ones; the pre-prune lookup is the old lookup overridden by theirs |
| Graphs.LiveVertices | gui/src/quanto/gui/QuantoGraph.java:161-164 | the graph's vertices are the live names' vertices of the lookup, indexed by name |
| Resolution.LookupIsOldPlusLive | gui/src/quanto/gui/QuantoGraph.java:112-164 | the lookup used after the prune is the old vertices overridden by the live ones |
| Graphs.QuantoGraph.SortAndPrune | gui/src/quanto/gui/QuantoGraph.java:159-164 | after sorting and pruning, the graph has exactly the declared names, its old vertices survive iff declared, and the boundary list is sorted `BoundaryOf` |
| Graphs.QuantoGraph.PrunedIsReconciled | gui/src/quanto/gui/QuantoGraph.java:154-164 | once pruned, the graph's lookup is the merged lookup cut down to the declared names |
| Graphs.QuantoGraph.ReconcileVertices | gui/src/quanto/gui/QuantoGraph.java:107-164 | clears the edges on both outcomes; fails with BadVertex iff some entry does not read, and then every old vertex is still in the graph; otherwise leaves exactly the declared names, old objects surviving iff declared, new objects fresh, fields `Merged` over the stale-marked old ones, and the boundary list sorted |
| Graphs.CollectEdges | gui/src/quanto/gui/QuantoGraph.java:167-188 | succeeds exactly when `ResolveEdges` does, with its edges; a failure is BadEdge at the first unresolvable entry, with the edges before it kept |
| Resolution.ResolveEdges | gui/src/quanto/gui/QuantoGraph.java:167-188 | the only error of the edge phase is BadEdge |
| Resolution.ResolveEdgesMeaning | gui/src/quanto/gui/QuantoGraph.java:167-188 | the edges resolve exactly when every entry has a name and known endpoints; there is then one edge per entry, between the vertices its source and target name |
| Resolution.ResolveEdgesAgree | gui/src/quanto/gui/QuantoGraph.java:174-177 | two lookups that agree on the names the entries refer to give the same edges |
| Resolution.EdgeEndpointsInLookup | gui/src/quanto/gui/QuantoGraph.java:185-186 | every endpoint of a resolved edge is a vertex of the lookup |
| Graphs.EdgeToPrunedVertex | gui/src/quanto/gui/QuantoGraph.java:162-186 | an edge whose source names a pruned vertex resolves to that pruned vertex, which is not in the graph |
| Graphs.CollectMembers | gui/src/quanto/gui/QuantoGraph.java:203-210 | the members resolve exactly when every boxed name is known; the members added before an unknown name are kept |
| Resolution.ResolveMembersMeaning | gui/src/quanto/gui/QuantoGraph.java:203-210 | the members resolve exactly when every name is known, each name to the vertex under it |
| Resolution.ResolveMembersAgree | gui/src/quanto/gui/QuantoGraph.java:206 | two lookups that agree on the boxed names give the same members |
| Graphs.CollectBangBoxes | gui/src/quanto/gui/QuantoGraph.java:190-211 | fails exactly when `ResolveBoxes` does, with its error, and otherwise yields its bang boxes |
| Resolution.ResolveBoxes | gui/src/quanto/gui/QuantoGraph.java:190-211 | the bang boxes fail exactly when some entry is unnamed or names an unknown vertex, with the first such entry's error |
| Resolution.ResolveBoxesMeaning | gui/src/quanto/gui/QuantoGraph.java:192-210 | resolved bang boxes are one per entry, named as the entry and holding its resolved members |
| Resolution.ResolveBoxesAgree | gui/src/quanto/gui/QuantoGraph.java:203-210 | two lookups that agree on the boxed names give the same bang boxes |
| Resolution.FirstBoxErrorNone | gui/src/quanto/gui/QuantoGraph.java:192-211 | no bang-box error at all exactly when no entry has one |
| Resolution.FirstBoxErrorSnoc | gui/src/quanto/gui/QuantoGraph.java:192-211 | one more entry's error counts only when no earlier entry failed |
| Resolution.FirstBoxErrorPrefix | gui/src/quanto/gui/QuantoGraph.java:192-211 | the first error among a prefix of the entries is the first error of them all |
| Graphs.LinkError | gui/src/quanto/gui/QuantoGraph.java:167-211 | once the vertex entries read, the error is BadEdge if the edges do not resolve, else the bang boxes' error |
| Graphs.QuantoGraph.Link | gui/src/quanto/gui/QuantoGraph.java:167-211 | the edge and bang-box phases fail exactly with `ReconcileError`, and on success store the resolved edges and bang boxes, with the vertices untouched |
| Graphs.QuantoGraph.FromXml | gui/src/quanto/gui/QuantoGraph.java:103-214 | a null description fails with NullGraph and changes nothing; otherwise fails exactly with `ReconcileError`; a bad vertex entry leaves no edges, every old vertex and the old bang boxes; once the vertex entries read, the graph holds exactly the declared names, old objects survive iff declared, new ones are fresh, the fields are `Merged` and the boundary list is sorted (`VerticesMerged`); on success the edges and bang boxes are those resolved in the pre-prune lookup (`Linked`) |
| Graphs.SelfContainedReconciles | gui/src/quanto/gui/QuantoGraph.java:103-214 | a description that reconciles into an empty graph reconciles into any graph |
| Graphs.SelfContainedEntries | gui/src/quanto/gui/QuantoGraph.java:114-211 | every edge and bang-box entry of a self-contained description resolves among its own declared names |
| Graphs.SelfContainedResolvesAlike | gui/src/quanto/gui/QuantoGraph.java:167-211 | a self-contained description resolves its edges and bang boxes alike in any two lookups agreeing on its names |
| Graphs.SameVertices | gui/src/quanto/gui/QuantoGraph.java:145-164 | a graph with unique names equal to a lookup's keys, and holding all its vertices, holds exactly them |
| Graphs.LiveStateAfter | gui/src/quanto/gui/QuantoGraph.java:145-164 | when the live names are exactly the declared ones, their fields do not depend on the earlier graph |
| Graphs.QuantoGraph.ReconciledAfter | gui/src/quanto/gui/QuantoGraph.java:107-211 | after a successful merge of a self-contained description the graph is reconciled with it |
| Graphs.QuantoGraph.FromXmlAgain | gui/src/quanto/gui/QuantoGraph.java:103-214 | merging the self-contained description a graph is reconciled with succeeds and keeps the same vertex objects, fields, boundary list, edges and bang boxes |
| Graphs.QuantoGraph.ReconcileTwice | gui/src/quanto/gui/QuantoGraph.java:103-214 | two merges of a self-contained description both succeed and leave the graph reconciled with it |
| Graphs.QuantoGraph.MergeAndNotify | gui/src/quanto/gui/QuantoGraph.java:79-91 | fails exactly with `ReconcileError`; leaves the graph as `FromXml` promises on both outcomes (a null root changes nothing; after a bad vertex entry: edges cleared, old vertices and bang boxes kept; once the vertex entries read: fresh new vertices and `VerticesMerged`; on success also `Linked`); on success it is marked unsaved and each listener is notified once; a failure leaves the flag and listeners alone |
| Graphs.QuantoGraph.FromXmlReader | gui/src/quanto/gui/QuantoGraph.java:73-93 | a syntax error fails with XmlParseError and changes nothing; a parsed root is merged, leaving the graph state `FromXml` promises on success and on each kind of failure (a null root changes nothing), with listeners notified on success only; the root is returned |
| Graphs.QuantoGraph.FireAfterMerge | gui/src/quanto/gui/QuantoGraph.java:79-91 | notifying after a successful merge marks the graph unsaved, notifies each listener once, and leaves the type, angle and stale flag of every vertex in the given lookup as they were |
| Graphs.QuantoGraph.GetBoundaryIndex | gui/src/quanto/gui/QuantoGraph.java:240-242 | the first position of the vertex in the boundary list, or -1 exactly when it is absent |
| Vertices.IndexOf | gui/src/quanto/gui/QuantoGraph.java:241 | `indexOf` returns the first position of the element, or -1 exactly when it is absent |
| Graphs.QuantoGraph.BoundaryIndexReconciled | gui/src/quanto/gui/QuantoGraph.java:240-242 | in a reconciled graph the boundary list is in name order and a vertex has a position exactly when an entry of its name declares a boundary |
| Graphs.LookUpByName | gui/src/quanto/gui/QuantoGraph.java:220-227 | the result holds the vertex under each non-boundary name of the other graph that the map knows, and nothing else, with no repeats |
| Graphs.QuantoGraph.GetSubgraphVertices | gui/src/quanto/gui/QuantoGraph.java:216-230 | returns exactly this graph's vertices whose name is a non-boundary name of the other graph, with no repeats, and marks every vertex stale |
| Graphs.ChangeListener.StateChanged | gui/src/quanto/gui/QuantoGraph.java:274 | a listener's callback counts one notification |
| Graphs.QuantoGraph.FireStateChanged | gui/src/quanto/gui/QuantoGraph.java:268-277 | the graph is marked unsaved and every registered listener is notified exactly once |
| Graphs.QuantoGraph.SetSaved | gui/src/quanto/gui/QuantoGraph.java:256-258 | `isSaved` then reports the value set |
| Graphs.QuantoGraph.AddChangeListener | gui/src/quanto/gui/QuantoGraph.java:264-266 | the listener set gains the listener, and a second add registers it only once |
| Graphs.QuantoGraph.RemoveChangeListener | gui/src/quanto/gui/QuantoGraph.java:283-285 | the listener set loses the listener |
| Graphs.QuantoGraph.constructor | gui/src/quanto/gui/QuantoGraph.java:35-48 | a new graph is empty, has no listeners and counts as saved |

## Left out

- XML tokenising is not modelled. `fromXmlReader` takes an already parsed `XmlInput` (a syntax error or a root element). `fromXml(String)` and `fromXml(File)` are left out: they only read text or a file.
- The `ClassNotFoundException`, `InstantiationException` and `IllegalAccessException` paths of `fromXmlReader` are left out. They come from the XML library's reflection.
- `synchronized` blocks are left out. The model is sequential.
- The JUNG graph library is not part of this model. Edges are values, and only the edge list is kept. `removeVertex` removing incident edges does not matter here: the edges are already gone when the prune runs.
- Graphs.QuantoGraph.FromXml: `addEdge` adding a missing endpoint back is not modelled. In the program, an edge whose endpoint names a pruned vertex (see `EdgeToPrunedVertex`) puts that vertex back, so the vertex set then holds more than the declared names. The model states `Names()` as exactly the declared names, which holds in the program only when every edge names declared vertices.
- Layout, positions, `getName`/`setName`, `getFileName`/`setFileName` and `getChangeListeners` are plain field accessors and are left out.
- Graphs.QuantoGraph.IsSaved and Graphs.QuantoGraph.GetBangBoxes are plain field reads and carry no contract of their own. `SetSaved`, `FireStateChanged` and `FromXml` state what they read.
- Graphs.QuantoGraph.FromXml: after a failure in the edge or bang-box phase, the partial lists are stored (as in the source) but only the error and the vertex part are stated. The edges built before a failing entry are stated by `CollectEdges`. After a bad vertex entry, the contract states the cleared edges, the kept old vertices and the kept bang boxes, but not the fields of the entries merged before it, the stale flags or the unsorted boundary list.
- The boundary list is `null` in the source until the first `fromXml`. The model starts it empty, so `GetBoundaryIndex` before any merge returns -1 instead of throwing.
- Descriptions.ParseVertex: `QVertex.setVertexType(String)` is not part of this model. The model takes it to store the colour as given, as `Typed(colour)`: never a boundary, and never rejected. A colour that setter maps to the boundary type, or rejects, would behave differently in the program.
- Vertices.NameLe orders names lexicographically by character. Java's `String.compareTo` compares UTF-16 code units, while Dafny characters compare as Unicode scalar values. The two orders differ only between characters above U+FFFF and those in U+E000 to U+FFFF.
- Graphs.CollectMembers: `BangBox` is not part of this model. Its `add` is taken to append, so a bang box's members are a list in the order added, repeats included; were it a set, repeats and order would not show.
- Vertices.SortByName: `HasName.NameComparator` is not part of this model. It is taken to compare `getName()` with `String.compareTo`, which is `NameLe`.
- Vertices.IndexOf: `QVertex.equals` is not part of this model. Vertices are compared by object identity, in `indexOf` and in the graph library's vertex sets alike.
- Vertices.QVertex.UpdateTo: `QVertex.updateTo` is not part of this model. It is taken to copy the type, the angle and the stale flag.
- Graphs.QuantoGraph.FromXmlAgain: idempotence is proved only for self-contained descriptions, which refer to no names outside their own. A description that names a vertex it does not declare can succeed once, through the pre-prune lookup. In the model, a second pass then fails: with BadEdge for such an edge, with UnknownBoxedVertex for such a bang-box member. In the program, the edge's endpoint was put back by `addEdge`, so the edge resolves again, and only a bang-box member that no edge put back fails, with UnknownBoxedVertex.
- Listener callbacks are opaque. `ChangeListener` counts its notifications, and the `ChangeEvent` object is not modelled.
- Graphs.QuantoGraph.GetSubgraphVertices: the order of the result follows the iteration order of a hash set in the source and is not specified.
- Integer widths play no role: the only integer is the index `GetBoundaryIndex` returns, and that list stays far below 2^31 elements.
