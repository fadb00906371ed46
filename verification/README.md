# Sheets: a verified model of the graph store and query engine

Sheets keeps a property graph in versioned tables and queries it with Cypher.
This project models the parts where a fast or stateful form stands in for a
simple one, and proves that the two agree.

* **The temporal store.** `Versions`, `GraphRules`, `Tables`, `WriteTx`, `Store`
  and `Runs` model the version tables, the write transaction as a class whose
  methods change its fields, and whole runs of batches. A batch is any sequence
  of mutations whose errors the callback may ignore. Its meaning is first given
  on plain graphs (`GraphRules.Meaning`, `Store.Play`, `Store.After`), with no
  versions and no tables; the transaction is proved to do exactly that, and
  `MutationMeaning` says what each mutation leaves behind, field by field, and
  exactly when it is accepted.
* **Reading.** `Snapshots`, `IndexLookup`, `GraphPaging` and `RevisionPaging`
  model snapshot resolution, index lookups, keyset pages, cursors and pullers,
  with writes going on between any two pages. `Uuid` models the identifier
  generator that gives the pages their order.
* **Matching.** `Trails` is the trail enumerator of `extendPattern` with a
  declarative reading of what a match is; `MatchMeaning` reads arrows, lengths,
  names and whole clauses off their syntax. `ShortestPath`, `ShortestAgreement`
  and `ShortestPattern` are the breadth-first search and its agreement with the
  enumerator, and `ShortestMeaning` says what is selected. `WorkingSet`,
  `WorkingSetAgreement` and `Pipeline` show that the bounded loader fetches enough,
  and `WorkingSetMeaning` that it fetches nothing else. `MemoryGraph` and
  `IndexedMatching` are the in-memory graph and its indexes, with `ListKeys` for
  lists; `NumericIndex` is the push-down of properties and the count shortcut, and
  `Pushdown` the scans the planner makes of a pattern.
* **Values.** `Arithmetic`, `Numbers`, `OrderValues` and `Kleene` cover guarded
  64-bit arithmetic, exact comparison of integers with doubles, the ORDER BY
  order, and three-valued logic; `SortMeaning` and `KleeneMeaning` say which rows
  come first and which answers are known. Doubles are dyadic rationals with NaN,
  infinities and negative zero.
* **Queries.** `Syntax`, `ScopeCheck`, `Evaluation`, `Projecting` and
  `ReadQuery` model the static validator and the evaluator of MATCH, UNWIND,
  WITH and RETURN, and prove the one sound for the other as far as names go;
  `QueryMeaning` says which rows each clause gives, and `ExpressionMeaning` what the
  forms of expressions evaluate to; `LimitPushdown` is the early stop of UNWIND, and
  `QueryGaps` the counterexamples.
* **The codec.** `Json`, `Nesting`, `Base64`, `Numerals`, `PropertyTree`,
  `PropertySize`, `PropertyValues`, `PropertyEncoder`, `PropertyCodec`,
  `PropertyDecoder`, `PropertyRoundTrip` and `LabelCodec` cover the canonical
  printer, spelled out in `WireFormat`, the exact size, every preflight, the
  decoder, and the round trips.

`Base`, `Text`, `EntityId`, `Sorted`, `Selections`, `Sums`, `MatchGraph`, `Walks`,
`Matching` and `EngineValues` hold shared definitions. `dafny verify
dfyconfig.toml` checks the project.

What is not in the model is a parameter of it: the clock and random bytes, the
encoded properties of a mutation, node and edge tests of patterns (predicates on
rows and IDs; `Pushdown` gives them for labels, types and property maps), the JSON
and base64 readers (assumed only to read back what is printed for values of
storable depth, lists of labels and byte strings), the text form of cursors (only
cursors with a 64-bit revision are assumed to read back), and in `Evaluation`
the results of operators and of the graph (a `World`, over which every theorem
quantifies).

## Where the code does not do what it promises

Each of these has a lemma with a concrete input or a family of inputs, next to the
theorem that says when the promise holds.

* An UNWIND may rebind a pattern variable: in `MATCH (a) MATCH (b) UNWIND [b]
  AS a MATCH (a)-->(c)` the read planner expands from the wrong candidates, so
  the working set loses rows (`PipelineGap.RebindingLosesRows`).
  `Pipeline.WorkingSetIsEnough` needs `SafeAliases`.
* The breadth-first search drops undirected round trips of three or more
  relationships (`ShortestAgreement.TriangleIsDropped`); it is exact if and only
  if none of the shortest trails is one (`SearchIsShortestIff`).
* The search evaluates its tests before the start is bound. In
  `shortestPath((a)-[*]->(a))` with `a` unbound it takes any neighbour for the
  target (`ShortestPattern.NeighbourIsNoLoop`); it is right if and only if every
  other target is farther than a round trip (`LoopSearchIff`). For the same reason
  maps and bounds must not read the start's variable (`ShortestAgreement.Independent`).
* `l * 0` with `l` not zero divides by zero in the overflow guard
  (`Arithmetic.ProductIsExactIff`).
* A byte string equals a list of its bytes in the matcher but not in the store's
  index, so a scan that asks for a byte string loses matches that hold such a list,
  and a count does not count them (`NumericIndex.CoveredIffNoBytes`, `PlanCovers`,
  `DirectCount`, `Pushdown.PushdownIsSoundIff`).
* A constraint under the empty property key is passed over when no number stands
  under another key: `MATCH (n $p) RETURN count(n)` with `{"": 1}` counts all nodes
  (`NumericIndex.EmptyKeyCountsAll`). `PlanIsSoundIff` and `DirectCount` say when
  nothing is passed over, and when the count is right.
* `encodeLabels` writes null for an empty list, as the copy it sorts is nil;
  `decodeLabels` also accepts `[]`, which is never written
  (`LabelCodec.CanonicalIsWrittenIff`).
* Equal lists may have different keys in the property index: `[0.0]` and `[-0.0]`
  (`ListKeys.NegativeZeroIsLost`), and lists of a large integer and the equal double,
  which prints with fewer digits (`ListKeys.LargeDoubleDiffers`). A lookup then misses matches, exactly as `ListLookupIff`
  says; and an update from one to the other in one revision leaves the entry as it was
  (`MemoryGraph.UpdateNode`).
* At the end of the 48-bit timestamp range a new identifier sorts before the last
  one (`Uuid.WrappedStampDecreases`).
* A pattern map is validated with all variables of the clause in scope but read
  from left to right (`QueryGaps.MapReadsLaterVariable`, `MapMisses`).
* In an aggregating projection an aggregate in ORDER BY may name an alias, which
  the rows of the group do not have: `RETURN count(n) AS c ORDER BY sum(c)`
  (`QueryGaps.OrderReadsAlias`, `AggregateReadsInput`).
* A WITH item that is a variable in parentheses or back-ticks enters the runtime
  scope under its source text: `WITH (n) RETURN *` has more columns than values
  and indexes past them (`QueryGaps.StarAfterWith`, `ParenthesizedVariable`; the
  streaming path of RETURN sends the misaligned row instead of failing).
* Over no rows, the parameter of a percentile, and the maps of a pattern in ORDER
  BY, read variables of an empty row (`QueryGaps.PercentileOfNothing`,
  `QueryGaps.MapOverNothing`, `MapOverNothingIsAccepted`).

## Model
| member | source | states |
|---|---|---|
| GraphRules.NewEdgeClosesNoCycle | internal/store/write.go:745-762 | adding a CHILD edge whose target does not reach its source keeps the graph acyclic |
| GraphRules.RejectedEdgeClosesCycle | internal/store/write.go:745-762 | and where the target does reach the source, adding it would close a cycle: the check rejects nothing needlessly |
| GraphRules.AddedEdgeKeepsRules | internal/store/write.go:718-764 | an edge that passes validateEdge, new or replacing `exclude`, keeps endpoints live, one CHILD parent, and the forest |
| GraphRules.MeaningKeepsRules | internal/store/write.go:353-704 | every mutation, accepted or not, leads from a graph obeying the rules to one that obeys them |
| MutationMeaning.DoneIs | internal/store/write.go:353-704 | after an accepted mutation the entity created has the fields of the request, an update gives each field named its new value and leaves the others, a delete takes away the entity and exactly its incident edges, and nothing else changes |
| MutationMeaning.DoneOnce | internal/store/write.go:353-704 | that reading, field by field, leaves only one graph |
| MutationMeaning.EdgeAcceptedIff | internal/store/write.go:718-764 | validateEdge accepts an edge if and only if its type is well-formed and the graph with it obeys the rules |
| MutationMeaning.AcceptedIff | internal/store/write.go:353-704 | a mutation is carried out if and only if it is legal, and, unless it changes nothing, the batch can get a revision |
| Versions.Inserted | internal/store/write.go:353-405 | creating an identity makes it visible from the batch revision on, changes no earlier snapshot, and keeps intervals disjoint and chained |
| Versions.Replaced | internal/store/write.go:462-484 | replacing the open version, in place or by a new one, changes the snapshot of the batch revision only, and keeps the history valid |
| Versions.Closed | internal/store/write.go:682-704 | closing the open version hides the identity from the batch revision on; what the same batch created leaves no trace |
| Versions.LookupIs | internal/store/read.go:229-239 | the row selected by the visibility condition is the only one, so a pinned read is well defined |
| Versions.OpenIsVisible | internal/store/read.go:295-321 | the open versions are exactly those visible at the newest revision |
| Versions.CreatedWasVisible | internal/store/write.go:706-716 | an identity row exists exactly when some revision shows the identity |
| Versions.TouchedDecides | internal/store/write.go:216-270 | comparing only the identities touched at the batch revision decides whether two whole snapshots differ |
| Tables.CurrentRevisionIsLast | internal/store/read.go:41-53 | the greatest sealed revision is the length of the log |
| Tables.AllocateKeepsLog | internal/store/write.go:290-330 | the timestamp a new revision gets keeps the log strictly increasing in time and contiguous in numbers |
| WriteTx.ChildPathExists | internal/store/write.go:768-817 | the batched breadth-first walk terminates and says exactly whether CHILD edges other than the excluded one lead from one node to the other |
| WriteTx.HasParent | internal/store/write.go:718-764 | the parent query finds another current CHILD edge with the same target exactly when there is one |
| WriteTx.Transaction.EnsureRevision | internal/store/write.go:290-330 | the batch allocates its revision row at most once, or reports why it cannot |
| WriteTx.Transaction.CreateNode | internal/store/write.go:353-405 | the node the tables hold, and the one returned, has the labels, properties and body of the request and the identity asked for or generated; nothing else changes |
| WriteTx.Transaction.UpdateNode | internal/store/write.go:408-460 | likewise for updates; one that changes nothing, or fails, leaves the tables and the revision counter as they were |
| WriteTx.Transaction.CheckEdge | internal/store/write.go:718-764 | the checks run against the tables decide exactly what validation means on the current snapshot |
| WriteTx.Transaction.CreateEdge | internal/store/write.go:548-601 | the edge the tables hold runs from and to the nodes of the request, with its type, position and properties; nothing else changes; a refused one leaves the graph |
| WriteTx.Transaction.UpdateEdge | internal/store/write.go:604-666 | likewise, with the edge itself excluded from its own checks, and nothing written if nothing changes |
| WriteTx.Transaction.DeleteEdge | internal/store/write.go:669-680 | likewise |
| WriteTx.Transaction.DeleteNode | internal/store/write.go:487-545 | closing the incident edges and then the node removes exactly the node and its edges |
| WriteTx.Transaction.Apply | internal/store/write.go:946-950 | a mutation succeeds exactly if it is legal and a revision can be had when it needs one, and then has the effect asked for; the first error of the batch stays recorded even if the callback ignores it |
| WriteTx.Transaction.GraphChanged | internal/store/write.go:216-270 | the answer is whether the working graph differs from the base graph |
| Store.Finish | internal/store/write.go:154-211 | a changed graph is sealed as exactly one new state, an unchanged one is rolled back to the savepoint |
| Store.Store.Write | internal/store/write.go:102-211 | errors leave the tables as they were; otherwise one state is appended exactly when the batch leads to a different graph; the store's rules hold again |
| Store.BatchMeans | internal/store/write.go:102-211 | Write succeeds if and only if the callback does and all mutations can be carried out in turn; then the last graph is the new state, if it differs from the first |
| Store.OneMutation | internal/store/write.go:102-211 | a batch of one mutation that has an effect appends the graph in which it is done, field by field |
| Store.SealedIsRecorded | internal/store/write.go:290-330 | the log gains one sealed row with the next number, the time, actor and message of the batch, and is otherwise as it was |
| Runs.Run | internal/store/write.go:102-211 | over any sequence of batches the states recorded before never change, and each new one differs from the one before it |
| Runs.CreateThenDeleteCollapses | internal/store/write.go:154-211 | creating a node and deleting it again records nothing |
| Runs.UpdateThenRevertCollapses | internal/store/write.go:154-211 | updating a node and putting the old body back records nothing |
| Runs.FailureIsFinal | internal/store/write.go:946-950 | a failed mutation can never be committed, wherever in the batch it happened |
| Runs.EndpointLifetimeHolds | internal/store/store.go:817-851 | both endpoints live when an edge version begins and as long as it lasts |
| Runs.ParentUniquenessHolds | internal/store/store.go:853-864 | CHILD versions of different edges to one node never overlap |
| Runs.AcyclicityHolds | internal/store/store.go:866-883 | no chain of CHILD versions sharing a revision leads back to where it began |
| Runs.NewNodeIsUnreferenced | internal/store/write.go:487-545 | deleting the identity of a node created in the same batch leaves no edge version that names it |
| Snapshots.ResolveSnapshot | internal/store/read.go:58-104 | a revision resolves to itself if it exists, a time to the number of revisions committed by then, the current selector to the last one |
| Snapshots.CommittedIsInitial | internal/store/read.go:86-102 | the revisions committed by a time are an initial part of the log |
| Snapshots.LatestIsCommitted | internal/store/read.go:91-93 | the row the timestamp query picks is the last of them |
| Snapshots.TimeIsStable | internal/store/read.go:86-102 | once something was committed later than a time, what that time resolves to never changes |
| Snapshots.ReadVisible | internal/store/read.go:234-238 | the rows passing the visibility condition are what the version table shows at that revision, one per identity |
| IndexLookup.CompileProperties | internal/store/view.go:292-338 | scalars become index terms, each once, composites leave a residual check, and too many or too long keys are refused |
| IndexLookup.KindIsRead | internal/store/index.go:23-62 | the kind an index row stores is the kind of the encoded value |
| IndexLookup.FormsAgree | internal/store/view.go:652-688 | one join per term and one grouped scan with a count select the same versions |
| IndexLookup.LookupIsExact | internal/store/view.go:550-596 | selected through the indexes and re-checked are exactly the versions with all labels and properties; with no composite value the re-check is superfluous |
| GraphPaging.NodePlanIsExact | internal/store/view.go:224-250 | a compiled node predicate selects exactly the nodes with one of the IDs, if any are given, all the labels, and each property in the encoding asked for |
| GraphPaging.EdgePlanIsExact | internal/store/view.go:252-290 | a compiled edge predicate selects exactly the edges with one of the IDs, sources, targets and types, where any are given, and each property in the encoding asked for |
| GraphPaging.AcceptedCursors | internal/store/view.go:875-919 | the cursors accepted are none, and those that name exactly this revision, kind and predicate and a well-formed entity ID |
| GraphPaging.CursorsAreBound | internal/store/view.go:870-890 | an issued cursor continues after its entity where it was issued, and is an error for any other revision, kind or predicate |
| GraphPaging.EnoughRows | internal/store/view.go:369-384 | the rows read before the loop breaks off decide the page |
| GraphPaging.Scan | internal/store/view.go:340-442 | a page is the first entities after the cursor in ID order, with a cursor at the last one exactly if more are left |
| GraphPaging.PageMeans | internal/store/view.go:340-442 | a page has in ID order entities that pass the predicate and come after the cursor, none before the last one left out, as many as asked for or 100, at most 1000, and a cursor exactly if one is left |
| GraphPaging.Count | internal/store/view.go:444-548 | both counting forms give the number of entities the predicate selects |
| GraphPaging.PagesConcatenate | internal/store/view.go:384-388 | a page and what its cursor leaves are what was left before it |
| GraphPaging.Puller.Next | internal/engine/iterator.go:833-889 | gives the entities of the pinned revision one by one, whatever the version table has become since |
| GraphPaging.BothAreTables | internal/store/read.go:229-253 | what the two version tables show at a revision, also in a later store, are the nodes and edges of its graph |
| GraphPaging.Pull | internal/engine/iterator.go:816-889 | drained while batches are written, a puller yields exactly the selected entities of its revision, in ID order |
| GraphPaging.PullNodes | internal/engine/iterator.go:819-853 | for nodes |
| GraphPaging.PullEdges | internal/engine/iterator.go:855-889 | for edges |
| GraphPaging.ListNodes | internal/store/read.go:255-268 | a current request with a cursor is answered at the cursor's revision |
| GraphPaging.ListEdges | internal/store/read.go:270-291 | likewise for edges |
| GraphPaging.RequestsRead | internal/store/read.go:255-291 | a revision asked for is the one read, whatever the cursor; a current request reads the last one, and one that continues reads that of its cursor |
| GraphPaging.FollowNodes | internal/store/read.go:255-268 | pages followed to the end while batches are written are together the nodes current at the first request |
| GraphPaging.FollowEdges | internal/store/read.go:270-291 | and the edges |
| RevisionPaging.CursorRoundTrip | internal/store/revision_cursor.go:38-99 | an issued revision cursor gives its boundary back in its own order and is an error in the other |
| RevisionPaging.UpgradeIsExact | internal/store/revision_cursor.go:130-143 | a cursor of an older release for a boundary, and nothing else, becomes the new cursor for it |
| RevisionPaging.NewCursorsAreKept | internal/store/revision_cursor.go:130-143 | a new cursor is never taken for an old one |
| RevisionPaging.ListRevisionPage | internal/store/read.go:159-226 | a page is the next part of the log in the order asked for, with a cursor exactly if more is left |
| RevisionPaging.PageMeans | internal/store/read.go:159-226 | the i-th row of a page is the revision i after the boundary, ascending, or i before it, descending, with a cursor exactly if there are more than the limit |
| RevisionPaging.ListRevisions | internal/store/read.go:140-153 | an old cursor continues exactly where the new one for its boundary would |
| RevisionPaging.FollowRevisions | internal/store/read.go:155-226 | while batches are written, descending pages visit exactly the revisions of the first request and ascending pages those first, each once |
| Uuid.IncrementPayload | internal/store/write.go:876-904 | adds exactly one to the 74-bit payload around version and variant, or reports that it was all ones |
| Uuid.TextIsEntityId | internal/store/write.go:857-873 | the text of a versioned identifier passes validateID |
| Uuid.TextOrderIsNumberOrder | internal/store/write.go:857-873 | identifiers sort as text in the order of timestamp and payload |
| Uuid.Generator.NewId | internal/store/write.go:825-874 | the next identifier counts on while the clock has not passed the last one, else draws a new payload; failing to draw changes nothing |
| Uuid.SuccessorIsLarger | internal/store/write.go:836-849 | within 48 bits of timestamp the next identifier is larger, whatever the clock does |
| Uuid.RunIncreases | internal/store/write.go:825-874 | identifiers increase strictly over every run |
| Uuid.WrappedStampDecreases | internal/store/write.go:836-856 | at the end of the timestamp range the next identifier is smaller |
| Trails.ContinueIsExact | internal/engine/match.go:484-573 | the enumerator lists exactly the matches that fit the rest of the pattern, each once |
| Trails.WalkIsExact | internal/engine/match.go:495-571 | so does its inner walk, which ends because unused edges run out |
| Trails.MatchIsTrail | internal/engine/match.go:484-573 | no match uses a relationship twice |
| Trails.DefaultBoundLosesNothing | internal/engine/match.go:785-814 | with the edge count as upper bound, a variable length admits the same matches as with any larger bound |
| MatchMeaning.AdjacentIs | internal/engine/match.go:588-619 | at a node a, an edge leads to b exactly if it runs from a to b under -->, from b to a under <--, and either way under -- and <--> |
| MatchMeaning.BoundsAre | internal/engine/match.go:785-814 | the bounds of a relationship admit exactly the lengths its syntax does: one, at least one, n, or those between its ends |
| MatchMeaning.EnumeratesMeaning | internal/engine/match.go:484-573 | from a node the enumerator lists, each once, exactly the paths with distinct edges that each arrow, length, test and name of the pattern admits |
| MatchMeaning.ArrowsMirror | internal/engine/match.go:588-604 | (a)-[r]->(b) and (b)<-[r]-(a) give the same rows, and -- those of the two together |
| Trails.ExtendPattern | internal/engine/match.go:484-573 | the recursive closure with its used set returns the list of `Continue`, in order, which `EnumeratesMeaning` reads off the pattern |
| Matching.MatchPattern | internal/engine/match.go:106-141 | candidates in ID order, each extended in order, path variable bound: the list `PatternMeans` characterises |
| MatchMeaning.PatternMeans | internal/engine/match.go:106-141 | for a row, a pattern gives one row for each match from each start the first node admits, with every name bound, and no other |
| Matching.MatchClauseRows | internal/engine/match.go:61-104 | all patterns of the clause in turn, WHERE, and the null row of OPTIONAL MATCH: the list `ClauseRowsMean` characterises |
| MatchMeaning.ClauseRowSelects | internal/engine/match.go:861-880 | the rows of a MATCH are those its patterns reach that pass WHERE, in their order |
| MatchMeaning.ClauseRowsMean | internal/engine/match.go:61-104 | a row is in the result if and only if it is reached from an input row through all patterns and passes WHERE, or is an input row of an OPTIONAL MATCH without any such, filled with nulls |
| Walks.ShortestIsTrail | internal/engine/match.go:170-173 | a shortest walk uses no edge twice |
| ShortestPath.PathsToExact | internal/engine/match.go:398-434 | following predecessors from a node gives every shortest walk to it, each once |
| ShortestPath.Reconstruct | internal/engine/match.go:398-434 | the stack walk with its reversals returns those paths |
| ShortestPath.RoundDone | internal/engine/match.go:279-338 | after a round the levels and predecessors are right one level further |
| ShortestPath.OneRound | internal/engine/match.go:279-341 | a round over every admitted edge of every frontier node ends the search with exactly the answers, or leaves it right one level further |
| ShortestPath.RoundAnswers | internal/engine/match.go:340-362 | the first round that finds something has found exactly the answers |
| ShortestPath.ShortestPathsFrom | internal/engine/match.go:256-363 | returns every shortest allowed trail from the start to a target, each once, and nothing else |
| ShortestAgreement.SearchIsShortestIff | internal/engine/match.go:256-363 | the search gives the shortest trails exactly if none of them is an undirected round trip over three or more relationships |
| ShortestAgreement.SafeSearchIsShortest | internal/engine/iterator.go:1224-1245 | a directed pattern, a start that is no target, or a lower bound of zero is enough for that |
| ShortestAgreement.TriangleIsDropped | internal/engine/match.go:307-331 | around an undirected triangle the enumerator returns to its start and the search finds nothing |
| ShortestAgreement.GenericIsFull | internal/engine/match.go:174-203 | the enumerator's paths over one relationship are exactly the trails the search is about |
| ShortestAgreement.KeyIsInjective | internal/engine/match.go:451-457 | paths with different edges have different order keys, as IDs contain no NUL |
| ShortestAgreement.StableSortOrders | internal/engine/match.go:240-240 | the selected paths are sorted by key, paths of one key staying in the order of their starts |
| ShortestAgreement.SelectionsAgree | internal/engine/match.go:227-249 | selecting among each start's shortest paths gives the same list as selecting among all paths |
| ShortestMeaning.ChosenMeans | internal/engine/match.go:227-249 | allShortestPaths gives every path no other is shorter than, in the order of keys, shortestPath one of them with the least key, or null |
| ShortestMeaning.AllTrailsMean | internal/engine/match.go:174-203 | what is selected from are the paths of all matches from all starts |
| ShortestPattern.EvaluateShortest | internal/engine/match.go:174-225 | shortestPath and allShortestPaths return what the generic matcher and selection would, for patterns whose tests, bounds and other names do not depend on the start's binding and which are not undirected round trips |
| ShortestAgreement.LoopIsShortestIff | internal/engine/match.go:374-385 | from a node to itself with the variable unbound, the search gives the shortest round trips if and only if every other target is farther and none of them is dropped |
| ShortestPattern.LoopTrailsAreClosed | internal/engine/match.go:374-385 | there the enumerator lists exactly the trails whose end is their start |
| ShortestPattern.LoopSearchIff | internal/engine/match.go:256-363 | so the two agree from a start exactly under that condition |
| ShortestPattern.NeighbourIsNoLoop | internal/engine/match.go:303-331 | over a single edge nothing matches and the search returns that edge |
| WorkingSet.Loader.ScanAdjacent | internal/engine/iterator.go:722-761 | fetches exactly the matching edges at the frontier, in the directions the pattern allows, in chunks or not |
| WorkingSet.Loader.ExpandVariable | internal/engine/iterator.go:676-720 | fetches all edges within the upper bound and gives the nodes between lower and upper bound |
| WorkingSet.Loader.Bind | internal/engine/iterator.go:336-348 | the candidates of a name grow by the nodes found; anonymous names and empty finds are passed over |
| WorkingSet.Loader.LoadOne | internal/engine/iterator.go:272-319 | loading a pattern has the effect the specification of the loader gives |
| WorkingSet.Loader.LoadAll | internal/engine/iterator.go:122-169 | and so has loading all patterns of the query |
| WorkingSetMeaning.LevelMeans | internal/engine/iterator.go:676-720 | a node is on level d if and only if a walk of d edges leads to it from the frontier, over edges the scans find in the direction of the arrow |
| WorkingSetMeaning.PatternMeans | internal/engine/iterator.go:272-319 | a pattern adds exactly the edges its relationships can step over within their upper bounds, the nodes there, and the candidates of each name |
| WorkingSetMeaning.LoadMeans | internal/engine/iterator.go:122-169 | the patterns of a query are loaded one after the other, each doing just that |
| WorkingSetMeaning.OnlyScanned | internal/engine/iterator.go:722-761 | nothing else is loaded: every edge was found by a scan of some relationship of the query |
| WorkingSetAgreement.AdmittedIsLoaded | internal/engine/iterator.go:722-761 | an edge the loader passed over is not admitted by the pattern |
| WorkingSetAgreement.ContinueAgrees | internal/engine/iterator.go:658-761 | from a loaded frontier the enumerator gives the same matches, in the same order, on the working set and on the snapshot |
| Pipeline.CandidatesAgree | internal/engine/iterator.go:635-656 | a pattern has the same start candidates on both |
| Pipeline.StepAgrees | internal/engine/match.go:61-104 | one MATCH, OPTIONAL MATCH or UNWIND gives the same rows on both |
| Pipeline.StepMeans | internal/engine/query.go:269-299 | UNWIND gives one row for each item of each row, in order, and with a limit the first ones |
| Pipeline.RowsMean | internal/engine/query.go:130-194 | the rows of a pipeline go through all its steps, one after the other |
| Pushdown.ScanPattern | internal/engine/iterator.go:368-443 | the scans read off a pattern are the filters of its labels, types and property plans |
| Pushdown.TestsMean | internal/engine/match.go:684-783 | a node matches exactly if it has all the labels and the map asks for equal values under its keys, a relationship if it has one of the types; `body` and `position` stand for those fields |
| Pushdown.FiltersMean | internal/engine/iterator.go:368-450 | a scan asks for the first 256 labels, or for the types if there are no more than that, and for each property in its very representation |
| Pushdown.NodePassesIff | internal/engine/iterator.go:368-398 | a node that matches passes its scan if and only if it holds no list in the place of an equal byte string |
| Pushdown.RelPassesIff | internal/engine/iterator.go:412-443 | likewise for relationships; too many types are left to the matcher |
| Pushdown.PushdownIsSoundIff | internal/engine/iterator.go:368-515 | the scans keep all that a pattern can match, as the working set needs, if and only if nothing is lost to byte strings |
| Pushdown.PlannedIsEnough | internal/engine/iterator.go:122-169 | with the planner's own scans and no byte string asked for, the working set gives the row list of the snapshot |
| Pipeline.WorkingSetIsEnough | internal/engine/iterator.go:122-270 | every pipeline the planner accepts, WITH included, gives the same row list, order included, on the working set as on the snapshot, if no UNWIND rebinds a pattern variable |
| PipelineGap.RebindingLosesRows | internal/engine/iterator.go:321-348 | with such an UNWIND a row is found on the snapshot and none on the working set |
| MemoryGraph.MemoryGraph.constructor | internal/engine/graph.go:33-57 | label, property, outgoing and incoming indexes agree with the nodes and edges given, the property index for values of every kind |
| MemoryGraph.MemoryGraph.CreateNode | internal/engine/graph.go:104-117 | adds the node and keeps the indexes in agreement |
| MemoryGraph.MemoryGraph.UpdateNode | internal/engine/graph.go:119-143 | replaces the node and keeps the indexes in agreement, although equal updates do not rebuild them; after an update that equality does not see, the index is exact for lists if and only if the node's entries are the same |
| MemoryGraph.MemoryGraph.DeleteNode | internal/engine/graph.go:145-170 | removes the node and exactly its edges, each once, and keeps the indexes in agreement |
| MemoryGraph.MemoryGraph.CreateEdge | internal/engine/graph.go:221-236 | adds the edge to both adjacency lists in order |
| MemoryGraph.MemoryGraph.UpdateEdge | internal/engine/graph.go:238-265 | moves it between lists only when an end moves |
| MemoryGraph.MemoryGraph.DeleteEdge | internal/engine/graph.go:267-280 | removes it from the map and both lists |
| MemoryGraph.EqualUpdateKeeps | internal/engine/graph.go:119-143 | an update that equality does not see leaves all entries of strings and booleans as they are |
| IndexedMatching.CandidateNodes | internal/engine/match.go:621-682 | the candidates are the matching nodes in the smallest index entry met, in ID order; for strings and booleans they are those of a linear filter of all nodes |
| IndexedMatching.CandidatesMean | internal/engine/match.go:621-682 | the candidates are in ID order the nodes with all the labels and an equal value, not null, under each key of the map, and with a bound variable at most its node |
| IndexedMatching.SingleLookupIff | internal/engine/match.go:621-682 | one constraint of any kind loses no match if and only if its key has no entry or every match has the key |
| ListKeys.OracleIsSound | internal/engine/aggregate.go:184-234 | strings and booleans equal only themselves and have keys of their own |
| ListKeys.KeysAgreeIff | internal/engine/aggregate.go:184-234 | equal lists share their index key if and only if all their numbers print alike |
| ListKeys.NumbersPrintAlike | internal/engine/eval.go:2053-2081 | equal numbers of one kind print alike if and only if they are not zeros of different sign |
| ListKeys.ListLookupIff | internal/engine/match.go:644-661 | a lookup of a list in an index that is exact finds every match if and only if its key has no entry or no match holds an equal list that prints otherwise |
| ListKeys.NegativeZeroIsLost | internal/engine/match.go:644-661 | with [0.0] on one node and [-0.0] on another, both match [0.0] and the lookup finds one |
| ListKeys.LargeDoubleDiffers | internal/engine/aggregate.go:184-191 | the integer 2^60 and the equal double, whose shortest digits are padded with zeros, give equal lists with different keys |
| IndexedMatching.AdjacentPairs | internal/engine/match.go:588-619 | from the two adjacency lists come the traversable edges in ID order, a self-loop once |
| NumericIndex.CandidatesAreExact | internal/engine/iterator.go:517-572 | the candidates are exactly the stored integers and doubles numerically equal to the value |
| NumericIndex.EqualIsSame | internal/engine/eval.go:1633-1691 | property values are equal exactly if, byte strings taken as lists of their bytes, numbers stand at one place, lists agree item by item, and other values are the same; NaN equals nothing |
| NumericIndex.MatchesMeans | internal/engine/match.go:757-783 | a map matches an entity exactly if under each key, the special one standing for its field, there is an equal value that is not null |
| NumericIndex.BuildPlan | internal/engine/iterator.go:452-515 | the first number in key order becomes alternatives, exact kinds go to the base until 256 terms are used, a constraint under the empty key is passed over unless a number stands under another key first, and the plan is complete exactly if no other key is left over |
| NumericIndex.CompleteIff | internal/engine/iterator.go:452-515 | a plan is complete if and only if, apart from a constraint passed over, all keys are exact but at most one number, none is special, and there are at most 256; or the first number is NaN |
| NumericIndex.PlanCovers | internal/engine/iterator.go:452-515 | a match satisfies the base and one alternative if and only if it holds no list in the place of a byte string asked for |
| NumericIndex.PlanIsSound | internal/engine/iterator.go:452-515 | an entity that a complete plan finds meets all constraints kept, and is a match if and only if it meets the one passed over |
| NumericIndex.PlanIsSoundIff | internal/engine/iterator.go:452-515 | everything a complete plan finds is a match if and only if no constraint under the empty key is passed over, or the plan is empty |
| NumericIndex.EmptyKeyCountsAll | internal/engine/iterator.go:490-506 | with a single constraint under the empty key, other than NaN, all nodes are found although a node without properties is no match |
| NumericIndex.AlternativesAreApart | internal/engine/iterator.go:452-515 | no entity is found by two alternatives |
| NumericIndex.CoveredIffNoBytes | internal/engine/eval.go:1633-1691 | no match at all is missed if and only if the base has no byte string, or nothing can match; the base of a complete plan has one exactly if the constraints kept have |
| NumericIndex.DirectCount | internal/engine/iterator.go:1250-1313 | the shortcut applies exactly to complete plans; it counts what meets the constraints kept and holds no list for a byte string, which with no byte string asked for is the number of rows of the matcher if and only if all nodes counted meet the constraint passed over; for stored numbers |
| Arithmetic.SumIsExact | internal/engine/eval.go:546-555 | + and - give the exact result, or an overflow exactly when it is no 64-bit integer |
| Arithmetic.WrappedTest | internal/engine/eval.go:557-557 | dividing the wrapped product by the right operand detects every overflow |
| Arithmetic.ProductIsExactIff | internal/engine/eval.go:557-557 | multiplication is exact or an overflow if and only if it is not a non-zero number times zero, which divides by zero |
| Arithmetic.QuotientIsExact | internal/engine/eval.go:539-571 | / and % truncate toward zero exactly, with errors exactly for a zero divisor and the one overflow |
| Arithmetic.QuoIsUnique | internal/engine/eval.go:561-570 | dividing a product by one of its factors gives the other |
| Arithmetic.IntegerRange | internal/engine/eval.go:2508-2564 | range gives exactly the progression up to its bound, no addition leaving the 64-bit range |
| Numbers.CompareIsByPlace | internal/engine/eval.go:2053-2081 | integers and doubles compare by their exact values |
| OrderValues.OrderIsTotal | internal/engine/eval.go:2086-2203 | the order over nested values is reflexive, antisymmetric in sign, and transitive |
| OrderValues.Precedes | internal/engine/query.go:815-827 | the less function compares key by key, each in its direction; `SortMeaning.RowsAre` says which row that puts first |
| OrderValues.ComparatorIsStrictWeak | internal/engine/query.go:815-827 | it is irreflexive, transitive, and its ties are transitive |
| OrderValues.SortedInOrder | internal/engine/query.go:802-833 | ORDER BY puts no row before a smaller one; `SortMeaning.SortMeans` says which that is |
| OrderValues.SortIsStable | internal/engine/query.go:802-833 | rows that tie keep their order |
| SortMeaning.CompareIs | internal/engine/eval.go:2086-2234 | before and after are those of the written order: maps, nodes, edges, lists, paths, strings, booleans, numbers, null; numbers by place with NaN last, strings by their characters, false before true, lists by the first difference and then length, maps by size, keys, and values |
| SortMeaning.LessIs | internal/engine/eval.go:2086-2203 | strings are compared at their first difference, a prefix coming first |
| SortMeaning.SortMeans | internal/engine/query.go:802-833 | of any two rows sorted, either all keys tie, or at the first that differs the earlier row comes before when ascending and after when descending |
| SortMeaning.StableMeans | internal/engine/query.go:802-833 | the rows with given keys are the same, in the same order, before and after sorting |
| Kleene.EqualIsMonotone | internal/engine/eval.go:1722-1874 | equality of nested values, once known, stays when nulls inside are replaced |
| Kleene.ContainsValue | internal/engine/eval.go:1693-1716 | IN is true if some item equals the needle, unknown if some might, false otherwise |
| Kleene.Tally | internal/engine/eval.go:828-890 | the counts of a list predicate decide as its quantifier says |
| Kleene.DecideIsExact | internal/engine/eval.go:828-890 | a list predicate is true, or false, if and only if it is so however its unknown outcomes are settled |
| KleeneMeaning.ConnectivesAreExact | internal/engine/eval.go:348-381 | AND, OR, XOR and NOT are true, or false, if and only if the two-valued connective is so however unknown operands are settled |
| KleeneMeaning.EvalConnectives | internal/engine/eval.go:192-262 | evaluated on booleans and nulls, expressions give exactly these answers; on booleans the two-valued ones |
| KleeneMeaning.EvalErrors | internal/engine/eval.go:229-262 | a left operand that decides is not followed by the right one; any other operand must be a boolean or null |
| KleeneMeaning.EqualIsSame | internal/engine/eval.go:1722-1874 | on values free of null, = says whether they are the same: numbers at one place, lists item by item, maps key by key |
| KleeneMeaning.EqualIsExact | internal/engine/eval.go:1722-1874 | with nulls, = is true if and only if the values are the same however the nulls are filled in; it is false if and only if they never are, unless a null stands against a NaN and nothing else differs |
| KleeneMeaning.NaNIsUnknown | internal/engine/eval.go:1722-1874 | NaN = null is null, though NaN equals nothing |
| KleeneMeaning.EvalEquality | internal/engine/eval.go:229-262 | and so do = and <> as expressions |
| KleeneMeaning.ContainsIsExact | internal/engine/eval.go:1693-1716 | IN is true if and only if some item equals the needle, false if and only if each differs from it |
| KleeneMeaning.EvalMembership | internal/engine/eval.go:1693-1716 | IN and NOT IN over values free of null say whether an item is the same value; a null list gives null, any other value an error |
| KleeneMeaning.EvalQuantifier | internal/engine/eval.go:819-891 | where the condition is a boolean on every item, any, all, none and single count them |
| Kleene.AndIsMonotone | internal/engine/eval.go:229-262 | short-circuiting AND never flips when operands become better known; `KleeneMeaning.EvalConnectives` says when it is known |
| Kleene.EvalIsMonotone | internal/engine/eval.go:81-190 | replacing nulls inside operands by values never flips a true or false result, where both evaluations succeed |
| Evaluation.EvalDefined | internal/engine/eval.go:81-190 | an expression whose reads are in its row, and in the rows of its group, raises no undefined variable |
| Evaluation.PartDefined | internal/engine/match.go:106-141 | a pattern matched on a row binds exactly its names, if its maps read only what is bound before them |
| ExpressionMeaning.ApplyMeans | internal/engine/eval.go:81-190 | arguments are evaluated from left to right until the first ones decide, and the operator sees their values |
| ExpressionMeaning.CaseMeans | internal/engine/eval.go:716-739 | CASE gives the value of the first WHEN that is true, or equals the operand, else that of ELSE, or null |
| ExpressionMeaning.ComprehensionMeans | internal/engine/eval.go:741-781 | a list comprehension has, in order, the items whose condition is true, projected; null for a null list |
| ExpressionMeaning.CollectionMeans | internal/engine/eval.go:783-817 | a pattern comprehension has, in order, the projection on the rows of the pattern whose condition is true |
| ExpressionMeaning.ReducedMeans | internal/engine/eval.go:893-919 | reduce hands the accumulator on from item to item |
| ExpressionMeaning.AggregateMeans | internal/engine/aggregate.go:17-165 | count(*) counts the rows of the group; any other aggregate sees the values of its argument in order, without nulls, and percentiles the value of their parameter |
| ExpressionMeaning.PartMeans | internal/engine/match.go:106-141 | the rows of a pattern are those of its starts and of the ends its hops lead to in turn, with each name bound or agreeing |
| ScopeCheck.AcceptedReads | internal/engine/validate.go:829-997 | an accepted expression with patterns in order reads only names in scope |
| ScopeCheck.AcceptedGroupReads | internal/engine/validate.go:1252-1377 | and its aggregates read only names in scope |
| ScopeCheck.AcceptedPart | internal/engine/validate.go:745-777 | an accepted pattern in order reads only names bound around it |
| ScopeCheck.AcceptedIff | internal/engine/validate.go:829-997 | without patterns, an expression is accepted if and only if all that it reads, from its row or its group, is in scope |
| ScopeCheck.PlainIff | internal/engine/validate.go:806-827 | where aggregates may not stand, if and only if there is none and all that it reads is in scope |
| ScopeCheck.AggregatePlacedIff | internal/engine/validate.go:1252-1377 | an aggregate without patterns may stand if and only if it is in no other one and has none in its arguments |
| ScopeCheck.GroupedReads | internal/engine/validate.go:422-577 | beside an aggregate and with no grouping key, an accepted expression reads aliases only |
| ScopeCheck.GroupedIff | internal/engine/validate.go:422-577 | without patterns and properties of variables, and with no grouping key, it is accepted if and only if there is a star or it reads aliases and its own variables only |
| Projecting.StarIsRow | internal/engine/query.go:598-636 | a star projects a row onto itself, value by value |
| Projecting.GroupingIsPartition | internal/engine/query.go:638-686 | grouping loses no row, and rows are together exactly when their keys are equal |
| Projecting.DistinctApart | internal/engine/query.go:759-786 | DISTINCT keeps no two lines of one key |
| Projecting.DistinctCovers | internal/engine/query.go:759-786 | and loses no key |
| Projecting.PagesJoin | internal/engine/query.go:835-872 | SKIP and LIMIT cut a window, and the next window starts where it ends |
| Projecting.SortReads | internal/engine/validate.go:290-322 | an accepted ORDER BY expression that the checks cover reads what its line offers |
| Projecting.ProjectDefined | internal/engine/query.go:378-488 | an accepted projection that the checks cover misses no variable and no column, and every line has one value per column |
| ReadQuery.ValidateClauses | internal/engine/validate.go:72-173 | the loop over the clauses gives the scope and columns of the specification, or rejects |
| ReadQuery.ValidatedIff | internal/engine/validate.go:72-173 | a pipeline is rejected if and only if some clause is not accepted in the scope that the clauses before it leave |
| ReadQuery.RunClauses | internal/engine/query.go:130-194 | the loop over the clauses is the fold of their steps, whose meanings the next rows give |
| QueryMeaning.StepsJoin | internal/engine/query.go:130-194 | clauses run one after the other, until one fails |
| QueryMeaning.MatchMeans | internal/engine/match.go:61-104 | MATCH gives, input row by input row and in order, the rows its patterns reach on which WHERE is absent or true, or the null-filled row of an OPTIONAL one that keeps none |
| QueryMeaning.MatchKeeps | internal/engine/match.go:861-880 | a row is in the result if and only if it is reached from an input row and WHERE is absent or true on it, or it is the null-filled row of an OPTIONAL MATCH that keeps none for its input row |
| QueryMeaning.UnwindMeans | internal/engine/query.go:269-299 | UNWIND gives one row for each item of each list, in order, and none for null |
| QueryMeaning.LinesMean | internal/engine/query.go:378-488 | a projection has a line for each row, or for each group if there is an aggregate, with the value of each item under its column |
| QueryMeaning.ProjectMeans | internal/engine/query.go:378-488 | of its lines those are left whose WHERE is true, the first of each key if DISTINCT, in the order asked for, and of these the window of SKIP and LIMIT |
| ReadQuery.SpelledColumns | internal/engine/query.go:586-596 | written as plain names, the static columns of a WITH are its output scope |
| ReadQuery.PipelineDefined | internal/engine/query.go:130-194 | an accepted pipeline that the checks cover misses no variable and no column, and its rows always have exactly the names of the static scope |
| ReadQuery.ReturnIsAligned | internal/engine/query.go:525-564 | the columns of its result follow from the scope, with one value for each in every row |
| LimitPushdown.UnwindLimited | internal/engine/query.go:269-299 | with a limit the loops stop as soon as one more row would exceed it |
| LimitPushdown.StoppingGivesFirst | internal/engine/query.go:269-299 | and give the first rows of the whole UNWIND |
| LimitPushdown.LimitPushdownIsSafe | internal/engine/query.go:301-320 | moving the limit of a plain WITH into the UNWIND before it changes neither rows nor scope, whenever the two clauses did not fail |
| QueryGaps.MapReadsLaterVariable | internal/engine/validate.go:80-87 | an accepted map that reads a variable bound later is undefined on every graph |
| QueryGaps.AggregateReadsInput | internal/engine/aggregate.go:26-41 | an aggregate of a variable over a non-empty group is undefined if and only if the variable is no input variable |
| QueryGaps.OrderReadsAlias | internal/engine/validate.go:388-420 | ORDER BY sum(c) over the alias c is accepted and undefined |
| QueryGaps.StarAfterWith | internal/engine/query.go:586-608 | after a WITH, the columns of a star outnumber its values if and only if some unaliased item is not written as an output name |
| QueryGaps.ParenthesizedVariable | internal/engine/validate.go:1633-1651 | WITH (n) RETURN * is accepted and runs past its values |
| QueryGaps.PercentileOfNothing | internal/engine/aggregate.go:125-136 | over no rows a percentile is undefined if and only if the variable of its parameter is not in the representative row, though it is accepted |
| QueryGaps.MapOverNothing | internal/engine/validate.go:543-552 | over no rows a pattern comprehension whose map starts with a variable is undefined if and only if that is not in the representative row |
| QueryGaps.MapOverNothingIsAccepted | internal/engine/validate.go:543-552 | in ORDER BY beside a count such a comprehension passes the aggregate checks |
| QueryGaps.MapMisses | internal/engine/match.go:106-141 | a pattern whose map starts with a variable is undefined if and only if its row has not got it, when it reads nothing else that is missing |
| Json.StringRoundTrip | internal/store/codec.go:95-124 | the printed form of a string reads back, whatever follows it |
| Json.ReadPrinted | internal/store/codec.go:142-172 | every printed JSON value reads back |
| Json.StringSize | internal/store/codec.go:95-124 | jsonStringSize is the exact length of the printed string |
| WireFormat.EscapesAre | internal/store/codec.go:95-124 | quotes, backslashes, line ends, tabs, control characters, angle brackets, ampersands and the two line separators are escaped as encoding/json does |
| WireFormat.OthersAre | internal/store/codec.go:95-124 | and every other character from the space on stands for itself |
| WireFormat.ArraysAre | internal/store/codec.go:142-172 | arrays are printed item by item, with commas and without white space |
| WireFormat.ObjectsAre | internal/store/codec.go:142-172 | and objects name by name |
| Nesting.ScanDepth | internal/store/codec.go:235-268 | the string-aware scanner accepts exactly the texts whose brackets stay within the bound |
| Nesting.PeakIsDepth | internal/store/codec.go:235-268 | on printed text its count is the depth of the value |
| Base64.RoundTrip | internal/store/codec.go:993-1001 | encoded bytes decode to themselves |
| WireFormat.GroupIs | internal/store/codec.go:993-1001 | three bytes become four symbols of the alphabet of section 4 of RFC 4648, most significant bits first |
| WireFormat.EndsAre | internal/store/codec.go:993-1001 | one or two bytes left are filled with zero bits and padded |
| Numerals.FormatRoundTrip | internal/store/codec.go:610-633 | a printed numeral reads back, in base ten and sixteen |
| WireFormat.FormatIs | internal/store/codec.go:610-633 | numerals are written most significant digit first, in lower case, without leading zeros, and have the value they are of |
| PropertyTree.TreeRoundTrip | internal/store/codec.go:1314-1330 | the JSON form of a tagged tree decodes to the tree |
| WireFormat.ScalarTrees | internal/store/codec.go:1025-1183 | the tag and the payload of each scalar kind: decimal integers, hexadecimal bits of doubles, base64 bytes, and true alone as a flag |
| WireFormat.MapTree | internal/store/codec.go:1211-1227 | a map has its fields in the order of their keys, and an empty one none |
| WireFormat.ListTree | internal/store/codec.go:1260-1273 | a list has its items in order, and an empty one none |
| PropertySize.CanonicalSize | internal/store/codec.go:45-91 | the size is the exact byte length of the printed tree, whatever order map keys are taken in |
| PropertyValues.WrittenIsShallow | internal/store/codec.go:235-268 | the bracket scanner never rejects what the printer wrote |
| PropertyValues.NormalIsEncodable | internal/store/codec.go:1314-1449 | the normal form of a storable value is storable |
| PropertyEncoder.EncodeState.EncodeValue | internal/store/codec.go:1025-1183 | gives the tree of the value exactly when depth, value and byte budgets admit it |
| PropertyEncoder.ScalarSize | internal/store/codec.go:494-582 | the size of a scalar without building it is its exact printed size |
| PropertyCodec.InputPreflight.Admit | internal/store/codec.go:286-373 | the preflight of the input rejects nothing within the limits, and its counts are right |
| PropertyCodec.IndexBudget | internal/store/codec.go:948-980 | the index budget is met exactly when the number and bytes of scalar fields are within bounds |
| PropertyCodec.ShapesAreValid | internal/store/codec.go:1466-1492 | validateEncodedShape accepts every written tree |
| PropertyCodec.EncodeProperties | internal/store/codec.go:142-172 | gives the text of a storable map, and an error for every other value |
| PropertyDecoder.StrictReaderIsFaithful | internal/store/codec.go:174-230 | the model's own reader meets what is assumed of the JSON and base64 readers: to read back what is printed for values of storable depth, and every byte string |
| PropertyDecoder.DecodeState.DecodeValue | internal/store/codec.go:1314-1449 | accepts only normal values, and accepts every written value within the limits |
| PropertyRoundTrip.TreePreflight.Admit | internal/store/codec.go:659-793 | the token preflight gives the exact size and rejects nothing written within the limits |
| PropertyRoundTrip.Preflight | internal/store/codec.go:174-205 | neither preflight rejects a written text |
| PropertyRoundTrip.DecodeProperties | internal/store/codec.go:174-230 | a text is accepted if and only if the encoder can produce it |
| PropertyRoundTrip.WrittenOnce | internal/store/codec.go:174-230 | a text comes from one normal value only |
| PropertyRoundTrip.RoundTrip | internal/store/codec.go:142-230 | encoding and decoding gives the normal form of every storable value, and an error for every other |
| LabelCodec.Normalize | internal/store/codec.go:1671-1684 | the list given out is that of the distinct labels in order |
| LabelCodec.NormalizeLabels | internal/store/codec.go:1671-1684 | which is no list at all if there is no label |
| LabelCodec.SizeOf | internal/store/codec.go:1519-1535 | the size computed before printing is the exact length of the text |
| LabelCodec.EncodeLabels | internal/store/codec.go:1506-1551 | a label list is written exactly when its labels, number, total and text are within bounds, as null if it has no label |
| LabelCodec.DecodeItems | internal/store/codec.go:1598-1669 | the position-tracking preflight accepts exactly the canonical spelling of an ordered list |
| LabelCodec.DecodeLabels | internal/store/codec.go:1553-1669 | a text is accepted exactly when the encoder writes it, or when it is the empty array |
| LabelCodec.CanonicalIsWrittenIff | internal/store/codec.go:1506-1551 | of the texts of ordered lists within bounds the encoder writes all but the empty array |
| LabelCodec.RoundTrip | internal/store/codec.go:1506-1592 | encoding and decoding gives the list sorted and without repetition, none for a list of no label, or an error if it is out of bounds |
| WireFormat.LabelTexts | internal/store/codec.go:1506-1551 | labels are printed as an array of strings, one after the other |

## Left out
- SQLite itself: SQL text, locking, busy retry, connections, migrations, schema fingerprints and triggers. Tables are collections, a transaction is one step after another, and the queries are functions or methods on the collections.
- The lexer, the parser and the binder: models start from the syntax tree.
- Temporal values in the codec, the comparators and the functions; `internal/engine/temporal.go`.
- The snapshot cache of the engine.
- Row, path and byte budgets, cancellation: taken not to fire.
- Regular expressions, string functions, `rand`, `randomUUID`, and rounding in aggregates.
- The command line, the terminal interface, rendering and project discovery.
- Static kinds, the placement of patterns, unknown functions and repeated relationship variables in validation: these only refuse more queries than the modelled checks do.
- `shortestPath` inside expressions of `Syntax`, EXISTS, CALL, UNION, and the updating clauses of a query.
- The streaming form of RETURN.
- Procedure calls in a pipeline of the planner.
- Numbers of Go's other kinds than int64 and float64 in parameters, such as an unsigned one above the int64 range.
- ScopeCheck.GroupedIff: leaves out patterns, properties read straight off a variable, and grouping keys, which are compared as texts.
- ScopeCheck.AcceptedIff: is about expressions without patterns; of those with patterns, that they read only names in scope once accepted is in `AcceptedReads`.
- Kleene.EvalIsMonotone: leaves out ordering comparisons, arithmetic and functions, which are not monotone or not predicates.
- ReadQuery.PipelineDefined: needs the conditions of `ReadQuery.AllSafe`; without them it fails as shown in `QueryGaps`. It is one direction only, as whether a missing name is ever reached depends on the values met before it; the families met have exact conditions in `AggregateReadsInput`, `StarAfterWith`, `MapMisses`, `PercentileOfNothing` and `MapOverNothing`.
- Pipeline.WorkingSetIsEnough: needs `SafeAliases`, one direction only, as a rebinding loses rows on some snapshots and none on others; node and edge tests are given as predicates, which `Pushdown` instantiates; the planner's fallbacks for dynamic lengths are not modelled.
- IndexedMatching.CandidateNodes: lookups of lists on an index that is no longer exact, after an update that equality did not see, are not modelled; maps and temporal values as constraints neither.
- Pushdown.PlannedIsEnough: asks for no byte string in a known property map, a sufficient condition; the exact one, on what the snapshot holds, is in `PushdownIsSoundIff`.
- ShortestPattern.EvaluateShortest: one direction, for patterns as in `Suitable`; what the search does beyond them is in `SearchIsShortestIff` and `LoopSearchIff`.
- MemoryGraph.WithoutEdge: builds a new list; that the original edits its slice in place, and what aliases it, is not captured.
- PropertyCodec.EncodeProperties: data are sequences of Unicode characters, so texts that are not valid UTF-8 are not modelled; float32, reflected and cyclic values are left out.
- OrderValues.OrderIsTotal: byte strings stand as lists and paths by their keys.
- GraphPaging.CursorsAreBound: base64, JSON and SHA-256 stand as an encoding given from outside, of which only that issued cursors read back is assumed.
- Sorting by `sort.Slice` and `sort.Strings` is the sorted list of a set or a stable insertion sort.
